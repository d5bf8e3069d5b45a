/** HTTP request and response values; header names match case-insensitively. */
module HttpTypes {
  import opened Core
  import opened Text

  datatype Header = Header(name: string, value: string)

  datatype HttpRequest = HttpRequest(
    verb: string,
    host: string,
    port: nat,
    path: string,
    headers: seq<Header>,
    body: string)

  datatype HttpResponse = HttpResponse(status: int, reason: string, headers: seq<Header>, body: string)

  const EMPTY_RESPONSE := HttpResponse(0, "", [], "")

  // The header names the library itself looks up or adds.
  const HOST: string := "Host"
  const CONTENT_LENGTH: string := "Content-Length"
  const TRANSFER_ENCODING: string := "Transfer-Encoding"
  const CONNECTION: string := "Connection"

  function AsciiLower(c: char): char {
    if 'A' <= c <= 'Z' then ((c as int) - ('A' as int) + ('a' as int)) as char else c
  }

  function LowerCase(s: string): string
    ensures |LowerCase(s)| == |s|
  {
    if s == "" then "" else [AsciiLower(s[0])] + LowerCase(s[1..])
  }

  predicate NamesEqual(a: string, b: string) {
    LowerCase(a) == LowerCase(b)
  }

  /** Where a name occurs twice, its first value counts. */
  function FindHeader(headers: seq<Header>, name: string): Option<string> {
    if headers == [] then None
    else if NamesEqual(headers[0].name, name) then Some(headers[0].value)
    else FindHeader(headers[1..], name)
  }

  predicate ContainsIgnoreCase(haystack: string, needle: string) {
    Find(LowerCase(haystack), needle, 0).Some?
  }

  // ---- Which names are equal, by character codes ----

  /** The same character, or one ASCII letter in its two cases. */
  predicate SameLetter(a: char, b: char) {
    || a == b
    || (65 <= a as int <= 90 && b as int == a as int + 32)
    || (65 <= b as int <= 90 && a as int == b as int + 32)
  }

  /** `n` is `name`, whatever the case of its letters. */
  ghost predicate Spells(n: string, name: string) {
    |n| == |name| && forall k | 0 <= k < |n| :: SameLetter(n[k], name[k])
  }

  /** `name` stands somewhere in `text`, whatever the case of its letters. */
  ghost predicate HoldsSpelling(text: string, name: string) {
    exists i :: SpelledAt(text, name, i)
  }

  ghost predicate SpelledAt(text: string, name: string, i: int) {
    0 <= i <= i + |name| <= |text| && Spells(text[i..i + |name|], name)
  }

  /** The first header of that name has that value. */
  ghost predicate FirstNamed(headers: seq<Header>, name: string, value: string) {
    exists i :: FirstNamedAt(headers, name, i) && headers[i].value == value
  }

  ghost predicate FirstNamedAt(headers: seq<Header>, name: string, i: int) {
    && 0 <= i < |headers| && Spells(headers[i].name, name)
    && forall j | 0 <= j < i :: !Spells(headers[j].name, name)
  }

  ghost predicate NoneNamed(headers: seq<Header>, name: string) {
    forall i | 0 <= i < |headers| :: !Spells(headers[i].name, name)
  }

  lemma {:induction false} SameLetterExactly(a: char, b: char)
    ensures SameLetter(a, b) <==> AsciiLower(a) == AsciiLower(b)
  {
  }

  lemma {:induction false} LowerCaseAt(s: string, k: nat)
    requires k < |s|
    ensures LowerCase(s)[k] == AsciiLower(s[k])
    decreases k
  {
    if k > 0 { LowerCaseAt(s[1..], k - 1); }
  }

  /** Two names are equal exactly if they are spellings of each other. */
  lemma {:induction false} NamesEqualExactly(a: string, b: string)
    ensures NamesEqual(a, b) <==> Spells(a, b)
  {
    forall k | 0 <= k < |a| && |a| == |b|
      ensures LowerCase(a)[k] == LowerCase(b)[k] <==> SameLetter(a[k], b[k])
    {
      LowerCaseAt(a, k);
      LowerCaseAt(b, k);
      SameLetterExactly(a[k], b[k]);
    }
    hide AsciiLower, SameLetter;
    assert NamesEqual(a, b) <==> LowerCase(a) == LowerCase(b);
  }

  /** A lookup gives the value of the first header with a spelling of the name. */
  lemma {:induction false} FindHeaderExactly(headers: seq<Header>, name: string)
    ensures FindHeader(headers, name).None? <==> NoneNamed(headers, name)
    ensures forall v :: FindHeader(headers, name) == Some(v) <==> FirstNamed(headers, name, v)
    decreases |headers|
  {
    hide Spells, NamesEqual;
    if headers != [] {
      var rest := headers[1..];
      NamesEqualExactly(headers[0].name, name);
      FindHeaderExactly(rest, name);
      if Spells(headers[0].name, name) {
        assert FirstNamedAt(headers, name, 0);
      } else {
        assert forall i | 0 <= i < |rest| :: rest[i] == headers[i + 1];
        assert forall i | 0 < i < |headers| :: rest[i - 1] == headers[i];
        forall i ensures FirstNamedAt(headers, name, i) <==> FirstNamedAt(rest, name, i - 1) {
          FirstNamedBelow(headers, name, i);
        }
        forall v ensures FirstNamed(headers, name, v) <==> FirstNamed(rest, name, v) {
          if i :| FirstNamedAt(rest, name, i) && rest[i].value == v { assert FirstNamedAt(headers, name, i + 1); }
        }
      }
    }
  }

  lemma {:induction false} FirstNamedBelow(headers: seq<Header>, name: string, i: int)
    requires headers != [] && !Spells(headers[0].name, name)
    ensures FirstNamedAt(headers, name, i) <==> FirstNamedAt(headers[1..], name, i - 1)
  {
    hide Spells;
    var rest := headers[1..];
    assert forall j | 0 <= j < |rest| :: rest[j] == headers[j + 1];
    if FirstNamedAt(rest, name, i - 1) {
      forall j | 0 <= j < i ensures !Spells(headers[j].name, name) {
        if j > 0 { assert rest[j - 1] == headers[j]; }
      }
    }
  }

  /** A word in small letters is found in a text in any case. */
  lemma {:induction false} ContainsIgnoreCaseExactly(text: string, word: string)
    requires LowerCase(word) == word
    ensures ContainsIgnoreCase(text, word) <==> HoldsSpelling(text, word)
  {
    forall i ensures OccursAt(LowerCase(text), word, i) <==> SpelledAt(text, word, i) {
      if 0 <= i <= i + |word| <= |text| {
        LowerCaseSlice(text, i, i + |word|);
        NamesEqualExactly(text[i..i + |word|], word);
      }
    }
    hide OccursAt, SpelledAt, LowerCase;
    assert forall i :: OccursAt(LowerCase(text), word, i) ==> HoldsSpelling(text, word);
  }

  lemma {:induction false} LowerCaseSlice(s: string, lo: nat, hi: nat)
    requires lo <= hi <= |s|
    ensures LowerCase(s[lo..hi]) == LowerCase(s)[lo..hi]
  {
    forall k | 0 <= k < hi - lo ensures LowerCase(s[lo..hi])[k] == LowerCase(s)[lo..hi][k] {
      LowerCaseAt(s[lo..hi], k);
      LowerCaseAt(s, lo + k);
    }
  }

  lemma {:induction false} FindHeaderConcat(a: seq<Header>, b: seq<Header>, name: string)
    ensures FindHeader(a + b, name) == if FindHeader(a, name).Some? then FindHeader(a, name) else FindHeader(b, name)
    decreases |a|
  {
    if a == [] {
      assert a + b == b;
    } else {
      assert (a + b)[1..] == a[1..] + b;
      FindHeaderConcat(a[1..], b, name);
    }
  }
}
