/** The redacting logger: every registered secret is masked out of a text. */
module LoggerModel {
  import opened Core
  import opened Text

  const MASK: string := "***"
  const MIN_SECRET_LEN: nat := 4

  /** A value that can be registered; shorter ones would mask common substrings. */
  type Secret = s: string | |s| >= MIN_SECRET_LEN witness "****"

  /** `text` with the occurrences of `secret` found by a left-to-right scan masked. */
  function Scrub(text: string, secret: Secret): string
    decreases |text|
  {
    match Find(text, secret, 0)
    case None => text
    case Some(p) => text[..p] + MASK + Scrub(text[p + |secret|..], secret)
  }

  /** The secrets are scrubbed one after the other, in registration order. */
  function ScrubAll(text: string, secrets: seq<Secret>): string
    decreases |secrets|
  {
    if secrets == [] then text
    else ScrubAll(Scrub(text, secrets[0]), secrets[1..])
  }

  lemma {:induction false} ScrubAt(text: string, secret: Secret, p: nat)
    requires Find(text, secret, 0) == Some(p)
    ensures Scrub(text, secret) == text[..p] + MASK + Scrub(text[p + |secret|..], secret)
  {
    hide OccursAt, Find;
  }

  lemma {:induction false} ScrubNothing(text: string, secret: Secret)
    requires Find(text, secret, 0).None?
    ensures Scrub(text, secret) == text
  {
  }

  lemma {:induction false} Associates(a: string, b: string, c: string, d: string)
    ensures a + (b + c + d) == a + b + c + d
  {
  }

  lemma {:induction false} ScanStep(masked: string, rest: string, secret: Secret, m: nat,
                                    masked': string, rest': string)
    requires Find(rest, secret, 0) == Some(m) && m + |secret| <= |rest|
    requires masked' == masked + rest[..m] + MASK && rest' == rest[m + |secret|..]
    ensures masked + Scrub(rest, secret) == masked' + Scrub(rest', secret)
  {
    hide *;
    ScrubAt(rest, secret, m);
    Associates(masked, rest[..m], MASK, Scrub(rest', secret));
  }

  lemma {:induction false} Splice(out: string, masked: string, rest: string, m: nat, n: nat, p: nat, mask: string)
    returns (masked': string, rest': string)
    requires out == masked + rest && m + n <= |rest| && n > 0 && p == |masked| + m
    ensures masked' == masked + rest[..m] + mask && rest' == rest[m + n..]
    ensures p + n <= |out| && out[..p] + mask + out[p + n..] == masked' + rest'
    ensures |masked'| == p + |mask| && |rest'| < |rest|
  {
    masked', rest' := masked + rest[..m] + mask, rest[m + n..];
    assert out[p + n..] == rest';
    assert out[..p] == masked + rest[..m];
  }

  /** Where a hit behind `masked` stands in `rest`. */
  lemma {:induction false} HitInRest(out: string, masked: string, rest: string, secret: Secret, p: nat)
    returns (m: nat)
    requires out == masked + rest && Find(out, secret, |masked|) == Some(p)
    ensures p == |masked| + m && Find(rest, secret, 0) == Some(m) && m + |secret| <= |rest|
  {
    hide *;
    FindInRest(out, masked, rest, secret);
    m := p - |masked|;
  }

  /** One hit of the scan: `masked` is final, `rest` is yet to be scanned. */
  lemma {:induction false} Advance(out: string, masked: string, rest: string, secret: Secret, p: nat)
    returns (masked': string, rest': string)
    requires out == masked + rest && Find(out, secret, |masked|) == Some(p)
    ensures p + |secret| <= |out|
    ensures out[..p] + MASK + out[p + |secret|..] == masked' + rest'
    ensures |masked'| == p + |MASK| && |rest'| < |rest|
    ensures masked + Scrub(rest, secret) == masked' + Scrub(rest', secret)
  {
    assert |secret| > 0;
    hide *;
    var m := HitInRest(out, masked, rest, secret, p);
    masked', rest' := Splice(out, masked, rest, m, |secret|, p, MASK);
    ScanStep(masked, rest, secret, m, masked', rest');
  }

  lemma {:induction false} FindInRest(out: string, masked: string, rest: string, n: string)
    requires out == masked + rest
    ensures Find(out, n, |masked|).Some? <==> Find(rest, n, 0).Some?
    ensures Find(out, n, |masked|).Some? ==> Find(out, n, |masked|).value == |masked| + Find(rest, n, 0).value
  {
    assert out[|masked|..] == rest;
    hide *;
    FindInSuffix(out, n, |masked|);
  }

  class Logger {
    var secrets: seq<Secret>

    ghost predicate Valid()
      reads this
    {
      forall i, j | 0 <= i < j < |secrets| :: secrets[i] != secrets[j]
    }

    constructor ()
      ensures Valid() && secrets == []
    {
      secrets := [];
    }

    /** Short secrets and duplicates are ignored. */
    method RegisterSecret(secret: string)
      requires Valid()
      modifies this
      ensures Valid()
      ensures secrets == if |secret| < 4 || secret in old(secrets) then old(secrets)
                         else old(secrets) + [secret]
    {
      if |secret| < MIN_SECRET_LEN { return; }
      for i := 0 to |secrets|
        invariant secrets == old(secrets)
        invariant forall j | 0 <= j < i :: secrets[j] != secret
      {
        if secrets[i] == secret { return; }
      }
      secrets := secrets + [secret];
    }

    method Redact(text: string) returns (out: string)
      requires Valid()
      ensures out == ScrubAll(text, secrets)
    {
      if secrets == [] { return text; }
      out := text;
      for k := 0 to |secrets|
        invariant ScrubAll(text, secrets) == ScrubAll(out, secrets[k..])
      {
        assert secrets[k..][0] == secrets[k] && secrets[k..][1..] == secrets[k + 1..];
        out := ReplaceInPlace(out, secrets[k]);
      }
    }

    /** The inner loop of the redaction: each hit is replaced where it stands,
        and the scan goes on behind the mask. */
    static method ReplaceInPlace(text: string, secret: Secret) returns (out: string)
      ensures out == Scrub(text, secret)
    {
      assert |secret| > |MASK|;
      hide *;
      out := text;
      var pos := 0;
      EmptyPrefix(out);
      ghost var masked, rest := "", out;
      var found := Find(out, secret, pos);
      while found.Some?
        invariant out == masked + rest && pos == |masked|
        invariant found == Find(out, secret, pos)
        invariant Scrub(text, secret) == masked + Scrub(rest, secret)
        decreases |rest|
      {
        var p := found.value;
        masked, rest := Advance(out, masked, rest, secret, p);
        out := out[..p] + MASK + out[p + |secret|..];
        pos := p + |MASK|;
        found := Find(out, secret, pos);
      }
      FindInSuffix(out, secret, pos);
      assert out[pos..] == rest;
      ScrubNothing(rest, secret);
    }
  }

  /** No part of such a string can be made out of a mask: it neither starts
      nor ends with a star and has no three stars in a row. */
  ghost predicate StarSafe(w: string) {
    w != "" && w[0] != '*' && w[|w| - 1] != '*' && !Contains(w, MASK)
  }

  lemma {:induction false} StarFreeIsStarSafe(w: string)
    requires w != "" && '*' !in w
    ensures StarSafe(w)
  {
    forall i ensures !OccursAt(w, MASK, i) {
      OccursAtChar(w, MASK, i, 0);
    }
  }

  lemma {:induction false} CoveredMask(t: string, w: string, i: int, k: nat)
    requires OccursAt(t, w, i) && k + 3 <= |w|
    requires t[i + k..i + k + 3] == MASK
    ensures Contains(w, MASK)
  {
    SliceOfSlice(t, i, i + |w|, k, k + 3);
    assert OccursAt(w, MASK, k);
  }

  lemma {:induction false} MaskBetween(a: string, b: string)
    ensures (a + MASK + b)[|a|..|a| + 3] == MASK
    ensures (a + MASK + b)[0..|a|] == a && (a + MASK + b)[|a| + 3..|a + MASK + b|] == b
    ensures forall k | |a| <= k < |a| + 3 :: (a + MASK + b)[k] == '*'
  {
  }

  lemma {:induction false} OccurrenceOnOneSide(a: string, b: string, w: string, i: int)
    requires StarSafe(w)
    ensures OccursAt(a + MASK + b, w, i) ==> OccursAt(a, w, i) || OccursAt(b, w, i - |a| - |MASK|)
  {
    var t := a + MASK + b;
    MaskBetween(a, b);
    OccursAtChar(t, w, i, 0);
    OccursAtChar(t, w, i, |w| - 1);
    OccursInSlice(t, w, 0, |a|);
    OccursInSlice(t, w, |a| + 3, |t|);
    if OccursAt(t, w, i) && i < |a| && |a| + 3 < i + |w| {
      CoveredMask(t, w, i, |a| - i);
    }
  }

  /** A star-safe string next to a mask lies wholly on one side of it. */
  lemma {:induction false} OneSideOfMask(a: string, b: string, w: string)
    requires StarSafe(w)
    ensures Contains(a + MASK + b, w) ==> Contains(a, w) || Contains(b, w)
  {
    forall i | OccursAt(a + MASK + b, w, i)
      ensures OccursAt(a, w, i) || OccursAt(b, w, i - |a| - |MASK|)
    {
      OccurrenceOnOneSide(a, b, w, i);
    }
    hide OccursAt, StarSafe;
  }

  /** Scrubbing leaves no occurrence of the secret behind. */
  lemma {:induction false} ScrubRemoves(text: string, secret: Secret)
    requires StarSafe(secret)
    ensures !Contains(Scrub(text, secret), secret)
    decreases |text|
  {
    assert |secret| > |MASK|;
    hide *;
    match Find(text, secret, 0)
    case None =>
      ScrubNothing(text, secret);
      NoneMeansAbsent(text, secret);
    case Some(p) =>
      var rest := text[p + |secret|..];
      ScrubRemoves(rest, secret);
      NothingBefore(text, secret, p);
      ScrubAt(text, secret, p);
      OneSideOfMask(text[..p], Scrub(rest, secret), secret);
  }

  lemma {:induction false} NoneMeansAbsent(text: string, n: string)
    requires Find(text, n, 0).None?
    ensures !Contains(text, n)
  {
    hide Find;
  }

  /** Scrubbing one secret never creates an occurrence of another string. */
  lemma {:induction false} ScrubCreatesNothing(text: string, secret: Secret, w: string)
    requires StarSafe(w) && !Contains(text, w)
    ensures !Contains(Scrub(text, secret), w)
    decreases |text|
  {
    assert |secret| > |MASK|;
    hide *;
    match Find(text, secret, 0)
    case None =>
      ScrubNothing(text, secret);
    case Some(p) =>
      var q := p + |secret|;
      NotInSlice(text, w, q, |text|);
      NotInSlice(text, w, 0, p);
      assert text[q..|text|] == text[q..] && text[0..p] == text[..p];
      ScrubCreatesNothing(text[q..], secret, w);
      ScrubAt(text, secret, p);
      OneSideOfMask(text[..p], Scrub(text[q..], secret), w);
  }

  lemma {:induction false} ScrubAllCreatesNothing(text: string, secrets: seq<Secret>, w: string)
    requires StarSafe(w) && !Contains(text, w)
    ensures !Contains(ScrubAll(text, secrets), w)
    decreases |secrets|
  {
    hide Contains, StarSafe, Scrub;
    if secrets != [] {
      ScrubCreatesNothing(text, secrets[0], w);
      ScrubAllCreatesNothing(Scrub(text, secrets[0]), secrets[1..], w);
    }
  }

  /** Redaction is complete: whatever the text and however the secrets overlap,
      the result contains none of the star-safe ones. */
  lemma {:induction false} RedactionComplete(text: string, secrets: seq<Secret>, w: Secret)
    requires w in secrets && StarSafe(w)
    ensures !Contains(ScrubAll(text, secrets), w)
    decreases |secrets|
  {
    hide Contains, StarSafe, Scrub;
    var first := Scrub(text, secrets[0]);
    if w == secrets[0] {
      ScrubRemoves(text, w);
      ScrubAllCreatesNothing(first, secrets[1..], w);
    } else {
      RedactionComplete(first, secrets[1..], w);
    }
  }

  lemma {:induction false} ContainsPart(t: string, w: string, x: string)
    requires Contains(t, w) && Contains(w, x)
    ensures Contains(t, x)
  {
    var i :| OccursAt(t, w, i);
    var j :| OccursAt(w, x, j);
    SliceOfSlice(t, i, i + |w|, j, j + |x|);
    assert OccursAt(t, x, i + j);
  }

  /** Any string that holds a star-safe registered secret is gone as well, be it
      star-safe or not. */
  lemma {:induction false} RedactionCovers(text: string, secrets: seq<Secret>, x: Secret, w: string)
    requires x in secrets && StarSafe(x) && Contains(w, x)
    ensures !Contains(ScrubAll(text, secrets), w)
  {
    RedactionComplete(text, secrets, x);
    hide *;
    if Contains(ScrubAll(text, secrets), w) { ContainsPart(ScrubAll(text, secrets), w, x); }
  }

  /** No text grows, and a text without secrets passes unchanged. */
  lemma {:induction false} RedactionShrinks(text: string, secrets: seq<Secret>)
    ensures |ScrubAll(text, secrets)| <= |text|
    ensures (forall k | 0 <= k < |secrets| :: !Contains(text, secrets[k])) ==> ScrubAll(text, secrets) == text
    decreases |secrets|
  {
    hide Contains, Scrub;
    if secrets != [] {
      ScrubShrinks(text, secrets[0]);
      RedactionShrinks(Scrub(text, secrets[0]), secrets[1..]);
    }
  }

  lemma {:induction false} ScrubShrinks(text: string, secret: Secret)
    ensures |Scrub(text, secret)| <= |text|
    ensures if Contains(text, secret) then |Scrub(text, secret)| < |text| else Scrub(text, secret) == text
    decreases |text|
  {
    assert |secret| > |MASK|;
    hide *;
    match Find(text, secret, 0)
    case None =>
      ScrubNothing(text, secret);
      NoneMeansAbsent(text, secret);
    case Some(p) =>
      var rest := text[p + |secret|..];
      ScrubAt(text, secret, p);
      ScrubShrinks(rest, secret);
      FoundMeansContained(text, secret, p);
      LengthOfJoin(text[..p], Scrub(rest, secret));
  }

  lemma {:induction false} LengthOfJoin(a: string, b: string)
    ensures |a + MASK + b| == |a| + 3 + |b|
  {
  }

  lemma {:induction false} FoundMeansContained(text: string, n: string, p: nat)
    requires Find(text, n, 0) == Some(p)
    ensures Contains(text, n)
  {
    hide Find;
  }

  /** If the first occurrence is known, one round of scrubbing is known. */
  lemma {:induction false} ScrubAtFirst(a: string, secret: Secret, b: string)
    requires |b| < |secret|
    requires forall j | 0 <= j < |a| :: !OccursAt(a + secret + b, secret, j)
    ensures ScrubAll(a + secret + b, [secret]) == a + MASK + b
  {
    var t := a + secret + b;
    FoundInMiddle(a, secret, b);
    TooShort(b, secret);
    OneRound(t, secret);
    hide *;
    ScrubAt(t, secret, |a|);
    ScrubNothing(b, secret);
  }

  lemma {:induction false} FoundInMiddle(a: string, n: string, b: string)
    requires forall j | 0 <= j < |a| :: !OccursAt(a + n + b, n, j)
    ensures Find(a + n + b, n, 0) == Some(|a|)
    ensures (a + n + b)[..|a|] == a && (a + n + b)[|a| + |n|..] == b
  {
    assert (a + n + b)[|a|..|a| + |n|] == n;
    assert OccursAt(a + n + b, n, |a|);
    hide OccursAt, Find;
  }

  lemma {:induction false} TooShort(b: string, n: string)
    requires |b| < |n|
    ensures Find(b, n, 0).None?
  {
  }

  lemma {:induction false} OneRound(t: string, secret: Secret)
    ensures ScrubAll(t, [secret]) == Scrub(t, secret)
  {
    hide Scrub;
    assert [secret][1..] == [];
  }

  lemma {:induction false} ShowsUp(t: string, n: string, i: nat)
    requires i + |n| <= |t| && t[i..i + |n|] == n
    ensures Contains(t, n)
  {
    assert OccursAt(t, n, i);
  }

  lemma {:induction false} LeakAtStart(secret: Secret)
    requires secret[0] == '*'
    ensures Contains(ScrubAll(secret + secret[1..], [secret]), secret)
  {
    var b := secret[1..];
    assert "" + secret + b == secret + b;
    assert ("" + MASK + b)[2..2 + |secret|] == secret;
    hide *;
    ScrubAtFirst("", secret, b);
    ShowsUp("" + MASK + b, secret, 2);
  }

  lemma {:induction false} NotInsideOverlap(secret: string, j: nat)
    requires |secret| > 0 && j < |secret| - 1
    requires secret[0] != '*' && secret[|secret| - 1] == '*'
    ensures !OccursAt(secret[..|secret| - 1] + secret + "", secret, j)
  {
    var n, text := |secret|, secret[..|secret| - 1] + secret + "";
    OccursAtChar(text, secret, j, 0);
    OccursAtChar(text, secret, j, n - 1);
    assert text[j] == secret[j] && text[j + (n - 1)] == secret[j];
    hide OccursAt;
  }

  lemma {:induction false} LeakAtEnd(secret: Secret)
    requires secret[0] != '*' && secret[|secret| - 1] == '*'
    ensures Contains(ScrubAll(secret[..|secret| - 1] + secret, [secret]), secret)
  {
    var n := |secret|;
    var a := secret[..n - 1];
    assert a + secret + "" == a + secret;
    assert (a + MASK + "")[0..n] == secret;
    hide *;
    forall j | 0 <= j < |a| ensures !OccursAt(a + secret + "", secret, j) {
      NotInsideOverlap(secret, j);
    }
    ScrubAtFirst(a, secret, "");
    ShowsUp(a + MASK + "", secret, 0);
  }

  /** The first three stars in a row of a secret stay the first when its own
      beginning is put in front. */
  lemma {:induction false} NotInsidePrefix(secret: string, u: nat, j: nat)
    requires j < u && OccursAt(secret, MASK, u) && !OccursAt(secret, MASK, j)
    ensures !OccursAt(secret[..u] + secret + secret[u + 3..], secret, j)
  {
    var text := secret[..u] + secret + secret[u + 3..];
    assert text[j + u..j + u + 3] == secret[j..j + 3] != MASK;
    assert secret[u..u + 3] == MASK;
    if OccursAt(text, secret, j) {
      SliceOfSlice(text, j, j + |secret|, u, u + 3);
    }
  }

  lemma {:induction false} LeakInside(secret: Secret, u: nat)
    requires OccursAt(secret, MASK, u) && forall j | 0 <= j < u :: !OccursAt(secret, MASK, j)
    ensures Contains(ScrubAll(secret[..u] + secret + secret[u + 3..], [secret]), secret)
  {
    var a, b := secret[..u], secret[u + 3..];
    assert a + MASK + b == secret;
    assert secret[0..|secret|] == secret;
    hide *;
    forall j | 0 <= j < |a| ensures !OccursAt(a + secret + b, secret, j) {
      NotInsidePrefix(secret, u, j);
    }
    ScrubAtFirst(a, secret, b);
    ShowsUp(a + MASK + b, secret, 0);
  }

  /** Every secret that is not star-safe survives the redaction of some text. */
  lemma {:induction false} UnsafeSecretLeaks(secret: Secret) returns (text: string)
    requires !StarSafe(secret)
    ensures Contains(ScrubAll(text, [secret]), secret)
  {
    hide ScrubAll, OccursAt;
    if secret[0] == '*' {
      text := secret + secret[1..];
      LeakAtStart(secret);
    } else if secret[|secret| - 1] == '*' {
      text := secret[..|secret| - 1] + secret;
      LeakAtEnd(secret);
    } else {
      var u := Find(secret, MASK, 0);
      if u.None? { NoneMeansAbsent(secret, MASK); }
      text := secret[..u.value] + secret + secret[u.value + 3..];
      LeakInside(secret, u.value);
    }
  }

  /** A logger that holds a single secret masks it out of every text exactly if
      it is star-safe. */
  lemma {:induction false} RedactionCompleteExactlyWhenStarSafe(secret: Secret)
    ensures (forall text :: !Contains(ScrubAll(text, [secret]), secret)) <==> StarSafe(secret)
  {
    hide *;
    if StarSafe(secret) {
      forall text ensures !Contains(ScrubAll(text, [secret]), secret) {
        RedactionComplete(text, [secret], secret);
      }
    } else {
      var text := UnsafeSecretLeaks(secret);
      assert Contains(ScrubAll(text, [secret]), secret);
    }
  }
}
