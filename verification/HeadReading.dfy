/** The loop that looks for the end of a head, as a function of what each read
    brings: which heads are taken whatever the cut, and which by some cut. */
module HeadReading {
  import opened Core
  import opened Text
  import opened HttpTypes
  import opened HttpHead
  import opened RequestBuilder
  import opened HttpExchange

  datatype Verdict = Found(end: nat) | TooLong | Waiting

  /** What is made of the bytes at hand and of the parts read after them. The
      length is looked at only when no blank line is in sight. */
  function HeadLoop(acc: string, parts: seq<string>): Verdict
    decreases |parts|
  {
    match Find(acc, BLANK, 0)
    case Some(e) => Found(e)
    case None =>
      if |acc| > MAX_HEADER_SECTION then TooLong
      else if parts == [] then Waiting
      else HeadLoop(acc + parts[0], parts[1..])
  }

  lemma {:induction false} HeadNow(acc: string)
    ensures HeadLoop(acc, []) == match Find(acc, BLANK, 0)
                                 case Some(e) => Found(e)
                                 case None => if |acc| > MAX_HEADER_SECTION then TooLong else Waiting
  {
    hide Find;
  }

  /** Reads through a buffer of `size` bytes. */
  ghost predicate Parts(parts: seq<string>, size: nat) {
    forall i | 0 <= i < |parts| :: 0 < |parts[i]| <= size
  }

  /** One way `text` may arrive. */
  ghost predicate IsCut(parts: seq<string>, text: string, size: nat) {
    Parts(parts, size) && Joined(parts) == text
  }

  lemma {:induction false} JoinedPush(parts: seq<string>, r: string)
    ensures Joined(parts + [r]) == Joined(parts) + r
    decreases |parts|
  {
    if parts == [] {
      assert [] + [r] == [r] && [r][1..] == [];
    } else {
      assert (parts + [r])[1..] == parts[1..] + [r];
      JoinedPush(parts[1..], r);
    }
  }

  /** One more read, as long as the loop is still looking. */
  lemma {:induction false} HeadLoopPush(acc: string, parts: seq<string>, r: string)
    requires HeadLoop(acc, parts) == Waiting
    ensures HeadLoop(acc, parts + [r]) == HeadLoop(acc + Joined(parts) + r, [])
    decreases |parts|
  {
    hide Find;
    if parts == [] {
      assert [] + [r] == [r] && [r][1..] == [] && acc + "" == acc;
    } else {
      assert (parts + [r])[0] == parts[0] && (parts + [r])[1..] == parts[1..] + [r];
      HeadLoopPush(acc + parts[0], parts[1..], r);
      ConcatAssociates(acc, parts[0], Joined(parts[1..]));
    }
  }

  lemma {:induction false} NoParts(acc: string, size: nat)
    ensures Parts([], size) && acc + Joined([]) == acc
  {
  }

  lemma {:induction false} ReadOn(acc: string, parts: seq<string>, r: string, size: nat)
    requires HeadLoop(acc, parts) == Waiting && Parts(parts, size) && 0 < |r| <= size
    ensures Parts(parts + [r], size) && acc + Joined(parts + [r]) == acc + Joined(parts) + r
    ensures HeadLoop(acc, parts + [r]) == HeadLoop(acc + Joined(parts) + r, [])
  {
    hide HeadLoop;
    HeadLoopPush(acc, parts, r);
    JoinedPush(parts, r);
    ConcatAssociates(acc, Joined(parts), r);
  }

  /** One turn of the loop, in terms of where the blank line will be. */
  lemma {:induction false} HeadStep(acc: string, parts: seq<string>, e: nat)
    requires Find(acc + Joined(parts), BLANK, 0) == Some(e)
    ensures e + 4 <= |acc| ==> HeadLoop(acc, parts) == Found(e)
    ensures e + 4 > |acc| ==>
              && parts != []
              && HeadLoop(acc, parts) ==
                 if |acc| > MAX_HEADER_SECTION then TooLong else HeadLoop(acc + parts[0], parts[1..])
    ensures parts != [] ==> acc + Joined(parts) == (acc + parts[0]) + Joined(parts[1..])
  {
    FirstBlankExtends(acc, Joined(parts));
    if parts == [] {
      assert acc + "" == acc;
    } else {
      ConcatAssociates(acc, parts[0], Joined(parts[1..]));
    }
    hide Find, OccursAt;
  }

  lemma {:induction false} NearHeadTaken(acc: string, parts: seq<string>, e: nat)
    requires Find(acc + Joined(parts), BLANK, 0) == Some(e) && e + 3 <= MAX_HEADER_SECTION
    ensures HeadLoop(acc, parts) == Found(e)
    decreases |parts|
  {
    hide Find, HeadLoop;
    HeadStep(acc, parts, e);
    if e + 4 > |acc| { NearHeadTaken(acc + parts[0], parts[1..], e); }
  }

  lemma {:induction false} TakenIsInReach(acc: string, parts: seq<string>, e: nat, size: nat)
    requires Find(acc + Joined(parts), BLANK, 0) == Some(e) && Parts(parts, size)
    requires HeadLoop(acc, parts) == Found(e) && e + 4 > |acc|
    ensures |acc| <= MAX_HEADER_SECTION && e + 4 <= MAX_HEADER_SECTION + size
    decreases |parts|
  {
    hide Find, HeadLoop;
    HeadStep(acc, parts, e);
    if e + 4 > |acc + parts[0]| { TakenIsInReach(acc + parts[0], parts[1..], e, size); }
  }

  // ---- Two cuts that settle the matter ----

  /** One byte at a time. */
  function Singles(text: string): seq<string> {
    if text == "" then [] else [text[..1]] + Singles(text[1..])
  }

  lemma {:induction false} SinglesAreCut(text: string, size: nat)
    requires size > 0
    ensures IsCut(Singles(text), text, size)
    decreases |text|
  {
    if text != "" {
      SinglesAreCut(text[1..], size);
      assert text[..1] + text[1..] == text;
    }
  }

  lemma {:induction false} SinglesRefused(acc: string, text: string, e: nat)
    requires Find(acc + text, BLANK, 0) == Some(e) && |acc| < e + 4 && e + 3 > MAX_HEADER_SECTION
    ensures HeadLoop(acc, Singles(text)) == TooLong
    decreases |text|
  {
    SinglesAreCut(text, 1);
    hide Find, HeadLoop;
    HeadStep(acc, Singles(text), e);
    if |acc| <= MAX_HEADER_SECTION {
      ConcatAssociates(acc, text[..1], text[1..]);
      assert text[..1] + text[1..] == text;
      SinglesRefused(acc + text[..1], text[1..], e);
    }
  }

  /** One byte at a time, until a single read reaches `need` bytes in all. */
  function Jump(need: nat, text: string, size: nat): seq<string>
    decreases |text|
  {
    if text == "" || need == 0 || need > |text| then Singles(text)
    else if need <= size then [text[..need]] + Singles(text[need..])
    else [text[..1]] + Jump(need - 1, text[1..], size)
  }

  lemma {:induction false} JumpIsCut(need: nat, text: string, size: nat)
    requires size > 0
    ensures IsCut(Jump(need, text, size), text, size)
    decreases |text|
  {
    if text == "" || need == 0 || need > |text| {
      SinglesAreCut(text, size);
    } else if need <= size {
      SinglesAreCut(text[need..], size);
      assert text[..need] + text[need..] == text;
    } else {
      JumpIsCut(need - 1, text[1..], size);
      assert text[..1] + text[1..] == text;
    }
  }

  lemma {:induction false} JumpTaken(acc: string, text: string, e: nat, size: nat)
    requires Find(acc + text, BLANK, 0) == Some(e) && size > 0
    requires e + 4 <= |acc| || (|acc| <= MAX_HEADER_SECTION && e + 4 <= MAX_HEADER_SECTION + size)
    ensures HeadLoop(acc, Jump(if e + 4 <= |acc| then 0 else e + 4 - |acc|, text, size)) == Found(e)
    decreases |text|
  {
    var need := if e + 4 <= |acc| then 0 else e + 4 - |acc|;
    var parts := Jump(need, text, size);
    JumpIsCut(need, text, size);
    hide Find, HeadLoop, Joined, Singles, Parts;
    HeadStep(acc, parts, e);
    if need > 0 {
      var n := if need <= size then need else 1;
      assert text[..n] + text[n..] == text;
      ConcatAssociates(acc, text[..n], text[n..]);
      if need <= size {
        SinglesAreCut(text[n..], size);
        HeadStep(acc + text[..n], Singles(text[n..]), e);
      } else {
        JumpTaken(acc + text[..n], text[n..], e, size);
      }
    }
  }

  // ---- Fragmentation and the length of a head ----

  /** A head is taken however the rest of it arrives exactly if its blank line
      starts three bytes before the limit or sooner, or is there already. */
  lemma {:induction false} EveryCutTakes(acc: string, text: string, e: nat, size: nat)
    requires Find(acc + text, BLANK, 0) == Some(e) && size > 0
    ensures (forall parts | IsCut(parts, text, size) :: HeadLoop(acc, parts) == Found(e))
       <==> e + 3 <= MAX_HEADER_SECTION || e + 4 <= |acc|
  {
    hide Find, HeadLoop;
    forall parts | IsCut(parts, text, size) && (e + 3 <= MAX_HEADER_SECTION || e + 4 <= |acc|)
      ensures HeadLoop(acc, parts) == Found(e)
    {
      HeadStep(acc, parts, e);
      if e + 4 > |acc| { NearHeadTaken(acc, parts, e); }
    }
    if e + 3 > MAX_HEADER_SECTION && |acc| < e + 4 {
      SinglesAreCut(text, size);
      SinglesRefused(acc, text, e);
    }
  }

  /** Some way to arrive has it taken exactly if it ends within one buffer of
      the limit. */
  lemma {:induction false} SomeCutTakes(acc: string, text: string, e: nat, size: nat)
    requires Find(acc + text, BLANK, 0) == Some(e) && size > 0
    ensures (exists parts :: IsCut(parts, text, size) && HeadLoop(acc, parts) == Found(e))
       <==> e + 4 <= |acc| || (|acc| <= MAX_HEADER_SECTION && e + 4 <= MAX_HEADER_SECTION + size)
  {
    hide Find, HeadLoop;
    forall parts | IsCut(parts, text, size) && HeadLoop(acc, parts) == Found(e) && e + 4 > |acc|
      ensures |acc| <= MAX_HEADER_SECTION && e + 4 <= MAX_HEADER_SECTION + size
    {
      TakenIsInReach(acc, parts, e, size);
    }
    if e + 4 <= |acc| || (|acc| <= MAX_HEADER_SECTION && e + 4 <= MAX_HEADER_SECTION + size) {
      var need := if e + 4 <= |acc| then 0 else e + 4 - |acc|;
      JumpIsCut(need, text, size);
      JumpTaken(acc, text, e, size);
      assert IsCut(Jump(need, text, size), text, size);
    }
  }

  /** A head that the client can parse, as long as one likes. */
  lemma {:induction false} HeadOfLength(n: nat) returns (head: string)
    requires n >= 32
    ensures |head| == n && ParseHead(head + CRLF).Some? && Find(head + BLANK, BLANK, 0) == Some(n)
  {
    StatusLineLength(200, "");
    var h := Header("x", seq(n - |StatusLine(200, "")| - 5, _ => 'a'));
    LongHeaderClean(h);
    RenderedHeadEnds(200, "", [h], "");
    RenderedHeadRead(200, "", [h]);
    FirstLine(StatusLine(200, ""), HeaderTexts([h]));
    OneHeader(h);
    head := Rendered(200, "", [h], "").head;
    hide Find, ParseHead, StatusLine, HeaderTexts, LinesText;
  }

  lemma {:induction false} LongHeaderClean(h: Header)
    requires h.name == "x" && h.value != "" && forall i | 0 <= i < |h.value| :: h.value[i] == 'a'
    ensures CleanHeaders([h]) && CleanText("") && Trim("") == ""
  {
    TrimNothing(h.value);
    TrimNothing(h.name);
    CleanHeaderAlone(h.name, h.value);
  }

  /** One head whose blank line is two bytes before the limit, through a buffer
      of 64 bytes: one cut has it taken, another has it refused. */
  lemma {:induction false} OneHeadTwoCuts() returns (head: string, taken: seq<string>, refused: seq<string>)
    ensures |head| == 8190 && ParseHead(head + CRLF).Some?
    ensures IsCut(taken, head + BLANK, 64) && HeadLoop("", taken) == Found(8190)
    ensures IsCut(refused, head + BLANK, 64) && HeadLoop("", refused) == TooLong
  {
    hide Find, HeadLoop, ParseHead;
    head := HeadOfLength(8190);
    var text := head + BLANK;
    EmptyPrefix(text);
    taken, refused := Jump(8194, text, 64), Singles(text);
    JumpIsCut(8194, text, 64);
    JumpTaken("", text, 8190, 64);
    SinglesAreCut(text, 64);
    SinglesRefused("", text, 8190);
  }
}
