/** Searches of bytes a machine word at a time. */
module ByteScan {
  const NUL: bv8 := 0
  const LF: bv8 := 10
  const CR: bv8 := 13

  const ONES: bv64 := 0x0101_0101_0101_0101
  const HIGHS: bv64 := 0x8080_8080_8080_8080
  const CRS: bv64 := 0x0D0D_0D0D_0D0D_0D0D
  const LFS: bv64 := 0x0A0A_0A0A_0A0A_0A0A

  predicate IsLineEnd(b: bv8) {
    b == CR || b == LF
  }

  /** A byte a physical span ends at. */
  predicate IsBoundary(b: bv8) {
    b == NUL || IsLineEnd(b)
  }

  /** Eight bytes as a machine loads them, the first the lowest. */
  function Word(b0: bv8, b1: bv8, b2: bv8, b3: bv8, b4: bv8, b5: bv8, b6: bv8, b7: bv8): bv64 {
    (b0 as bv64) | ((b1 as bv64) << 8) | ((b2 as bv64) << 16) | ((b3 as bv64) << 24)
    | ((b4 as bv64) << 32) | ((b5 as bv64) << 40) | ((b6 as bv64) << 48) | ((b7 as bv64) << 56)
  }

  /** The bits a zero byte of `word` sets. */
  function Zeros(word: bv64): bv64 {
    (word - ONES) & !word
  }

  predicate HoldsLineEnd(word: bv64) {
    (Zeros(word ^ CRS) | Zeros(word ^ LFS)) & HIGHS != 0
  }

  predicate HoldsBoundary(word: bv64) {
    (Zeros(word) | Zeros(word ^ CRS) | Zeros(word ^ LFS)) & HIGHS != 0
  }

  /** A word's byte is zero when the bits of one are set, whichever. */
  lemma ZeroByte(b0: bv8, b1: bv8, b2: bv8, b3: bv8, b4: bv8, b5: bv8, b6: bv8, b7: bv8)
    ensures Zeros(Word(b0, b1, b2, b3, b4, b5, b6, b7)) & HIGHS != 0 <==>
              b0 == 0 || b1 == 0 || b2 == 0 || b3 == 0 || b4 == 0 || b5 == 0 || b6 == 0 || b7 == 0
  {
  }

  /** The test for a span's end is those for a NUL and for a line's end. */
  lemma BoundaryTest(word: bv64)
    ensures HoldsBoundary(word) <==> Zeros(word) & HIGHS != 0 || HoldsLineEnd(word)
  {
    hide Zeros;
    EitherSet(Zeros(word), Zeros(word ^ CRS), Zeros(word ^ LFS));
  }

  lemma EitherSet(a: bv64, b: bv64, c: bv64)
    ensures (a | b | c) & HIGHS != 0 <==> a & HIGHS != 0 || (b | c) & HIGHS != 0
  {
  }

  lemma LineEndWord(b0: bv8, b1: bv8, b2: bv8, b3: bv8, b4: bv8, b5: bv8, b6: bv8, b7: bv8)
    ensures HoldsLineEnd(Word(b0, b1, b2, b3, b4, b5, b6, b7)) <==>
              || IsLineEnd(b0) || IsLineEnd(b1) || IsLineEnd(b2) || IsLineEnd(b3)
              || IsLineEnd(b4) || IsLineEnd(b5) || IsLineEnd(b6) || IsLineEnd(b7)
  {
  }

  /** A WORD'S TEST TELLS WHETHER ONE OF ITS BYTES IS SOUGHT. */
  lemma BoundaryWord(b0: bv8, b1: bv8, b2: bv8, b3: bv8, b4: bv8, b5: bv8, b6: bv8, b7: bv8)
    ensures HoldsBoundary(Word(b0, b1, b2, b3, b4, b5, b6, b7)) <==>
              || IsBoundary(b0) || IsBoundary(b1) || IsBoundary(b2) || IsBoundary(b3)
              || IsBoundary(b4) || IsBoundary(b5) || IsBoundary(b6) || IsBoundary(b7)
  {
    hide Word, Zeros, HoldsBoundary, HoldsLineEnd;
    BoundaryTest(Word(b0, b1, b2, b3, b4, b5, b6, b7));
    ZeroByte(b0, b1, b2, b3, b4, b5, b6, b7);
    LineEndWord(b0, b1, b2, b3, b4, b5, b6, b7);
  }

  function WordAt(text: seq<bv8>, at: nat): bv64
    requires at + 8 <= |text|
  {
    Word(text[at], text[at + 1], text[at + 2], text[at + 3], text[at + 4], text[at + 5], text[at + 6], text[at + 7])
  }

  /** No byte from `from` to `to` ends a span. */
  ghost predicate NoBoundary(text: seq<bv8>, from: nat, to: nat)
    requires to <= |text|
  {
    forall i :: from <= i < to ==> !IsBoundary(text[i])
  }

  ghost predicate NoLineEnd(text: seq<bv8>, from: nat, to: nat)
    requires to <= |text|
  {
    forall i :: from <= i < to ==> !IsLineEnd(text[i])
  }

  lemma WordPassed(text: seq<bv8>, at: nat)
    requires at + 8 <= |text|
    ensures !HoldsBoundary(WordAt(text, at)) <==> NoBoundary(text, at, at + 8)
  {
    hide HoldsBoundary, IsBoundary, Word;
    BoundaryWord(text[at], text[at + 1], text[at + 2], text[at + 3], text[at + 4], text[at + 5], text[at + 6], text[at + 7]);
  }

  lemma WordPassedBack(text: seq<bv8>, at: nat)
    requires at + 8 <= |text|
    ensures !HoldsLineEnd(WordAt(text, at)) <==> NoLineEnd(text, at, at + 8)
  {
    hide HoldsLineEnd, IsLineEnd, Word;
    LineEndWord(text[at], text[at + 1], text[at + 2], text[at + 3], text[at + 4], text[at + 5], text[at + 6], text[at + 7]);
  }

  /** THE END OF A PHYSICAL SPAN: the first byte at or after `from` that ends one, or the end. Bytes are looked at one
      by one only in the word that holds it, or past the last whole word. */
  method SpanEnd(text: seq<bv8>, from: nat) returns (end: nat, bytewise: nat)
    requires from <= |text|
    ensures from <= end <= |text| && NoBoundary(text, from, end)
    ensures end < |text| ==> IsBoundary(text[end])
    ensures bytewise <= 8
  {
    hide HoldsBoundary, IsBoundary, WordAt;
    end := from;
    while |text| - end >= 8
      invariant from <= end <= |text| && NoBoundary(text, from, end)
    {
      WordPassed(text, end);
      if HoldsBoundary(WordAt(text, end)) {
        break;
      }
      end := end + 8;
    }
    ghost var word := end;
    bytewise := 0;
    while end < |text|
      invariant word <= end <= |text| && NoBoundary(text, from, end) && bytewise == end - word
      invariant |text| - word < 8 || !NoBoundary(text, word, word + 8)
    {
      assert |text| - word >= 8 ==> end < word + 8;
      bytewise := bytewise + 1;
      if IsBoundary(text[end]) {
        return;
      }
      end := end + 1;
    }
  }

  // ---------- Where the complete lines end ----------

  /** A line of `text` that is complete whatever follows may end at `end`: after LF, or after CR and before a byte. */
  ghost predicate Completes(text: seq<bv8>, end: nat)
    requires end <= |text|
  {
    end > 0 && (text[end - 1] == LF || (text[end - 1] == CR && end < |text|))
  }

  /** Where the last complete line of `text` ends. */
  ghost predicate IsCompleteEnd(text: seq<bv8>, end: nat)
  {
    && end <= |text|
    && (end == 0 || Completes(text, end))
    && forall e :: end < e <= |text| ==> !Completes(text, e)
  }

  /** With no line end from `end` to `last`, and past it no byte but a CR that ends the text, no line completes there. */
  lemma NoneCompletes(text: seq<bv8>, end: nat, last: nat)
    requires end <= last <= |text| && NoLineEnd(text, end, last)
    requires last == |text| || (last == |text| - 1 && text[last] == CR)
    ensures forall e :: end < e <= |text| ==> !Completes(text, e)
  {
    forall e | end < e <= |text|
      ensures !Completes(text, e)
    {
      assert e - 1 < last ==> !IsLineEnd(text[e - 1]);
    }
  }

  /** and what completed in the bytes before is what does. */
  lemma CompletedBefore(text: seq<bv8>, read: nat, complete: nat, end: nat, last: nat)
    requires read <= |text| && IsCompleteEnd(text[..read], complete)
    requires end <= read && (read == 0 || end < read) && forall e :: end < e <= |text| ==> !Completes(text, e)
    ensures IsCompleteEnd(text, complete)
  {
    var before := text[..read];
    assert complete > 0 ==> before[complete - 1] == text[complete - 1] && Completes(text, complete);
    forall e | complete < e <= |text|
      ensures !Completes(text, e)
    {
      if e <= end {
        assert before[e - 1] == text[e - 1];
        assert !Completes(before, e);
      }
    }
  }

  /** Where the last complete line of a text ends, `complete` being where that of its first `read` bytes does. Bytes
      before the last of those are not looked at, and one by one only in the word that holds the end. */
  method CompleteEnd(text: seq<bv8>, read: nat, complete: nat) returns (end: nat, bytewise: nat)
    requires read <= |text| && IsCompleteEnd(text[..read], complete)
    ensures IsCompleteEnd(text, end)
    ensures bytewise <= 9
  {
    hide HoldsLineEnd, WordAt;
    bytewise := 0;
    var floor := if read > 0 then read - 1 else 0;
    end := |text|;
    if end > floor && text[end - 1] == LF {
      return;
    }
    if end > floor && text[end - 1] == CR {
      end := end - 1;
    }
    ghost var last := end;
    while end - floor >= 8
      invariant floor <= end <= last && NoLineEnd(text, end, last)
    {
      WordPassedBack(text, end - 8);
      if HoldsLineEnd(WordAt(text, end - 8)) {
        break;
      }
      end := end - 8;
    }
    ghost var word := end;
    while end > floor && text[end - 1] != LF && text[end - 1] != CR
      invariant floor <= end <= word <= last && NoLineEnd(text, end, last) && bytewise == word - end
      invariant word - floor < 8 || !NoLineEnd(text, word - 8, word)
    {
      assert word - floor >= 8 ==> end > word - 8;
      end := end - 1;
      bytewise := bytewise + 1;
    }
    NoneCompletes(text, end, last);
    if end <= floor {
      CompletedBefore(text, read, complete, end, last);
      end := complete;
    }
  }
}
