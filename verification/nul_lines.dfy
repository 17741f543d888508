/** Lines that hold NUL: how they are read, and the source byte each byte read comes from. */
module NulLines {
  import opened Basics
  import opened ContentMaps

  /** The character read for a NUL, U+FFFD. */
  const REPLACEMENT: seq<nat> := [0xEF, 0xBF, 0xBD]

  const LINE_FEED: nat := 10

  /** A byte read of a line: the source byte it stands for, and whether it is one of three that stand for a NUL. */
  datatype Read = Read(byte: nat, source: int, nul: bool)

  /** A NUL-bearing line as it is read: its bytes, ended, and where its NULs are in the source. */
  datatype View = View(bytes: seq<nat>, nuls: seq<int>)

  ghost function ReadOf(byte: nat, at: int): (r: seq<Read>)
    ensures |r| == if byte == 0 then 3 else 1
  {
    if byte != 0 then [Read(byte, at, false)]
    else seq(3, i requires 0 <= i < 3 => Read(REPLACEMENT[i], at, true))
  }

  /** A line from source byte `start` on, as it is read. */
  ghost function Reads(text: seq<nat>, start: int): seq<Read>
  {
    if text == [] then []
    else Reads(text[..|text| - 1], start) + ReadOf(text[|text| - 1], start + |text| - 1)
  }

  /** Where its NULs are. */
  ghost function Nuls(text: seq<nat>, start: int): seq<int>
  {
    if text == [] then []
    else Nuls(text[..|text| - 1], start) + if text[|text| - 1] == 0 then [start + |text| - 1] else []
  }

  ghost function Bytes(got: seq<Read>): (b: seq<nat>)
    ensures |b| == |got|
  {
    seq(|got|, i requires 0 <= i < |got| => got[i].byte)
  }

  /** The byte a NUL's replacement starts at. */
  function Starts(nuls: seq<int>, start: int, k: nat): int
    requires k < |nuls|
  {
    nuls[k] - start + 2 * k
  }

  /** What byte `x` read stands for, past the line's end as if it went on. */
  ghost function Origin(text: seq<nat>, start: int, x: nat): (int, bool)
  {
    var got := Reads(text, start);
    if x < |got| then (got[x].source, got[x].nul) else (start + x - 2 * |Nuls(text, start)|, false)
  }

  lemma {:induction false} NulsUp(text: seq<nat>, start: int)
    ensures var nuls := Nuls(text, start);
            && |Reads(text, start)| == |text| + 2 * |nuls|
            && (forall k :: 0 <= k < |nuls| ==> start <= nuls[k] < start + |text| && text[nuls[k] - start] == 0)
            && (forall k, j :: 0 <= k < j < |nuls| ==> nuls[k] < nuls[j])
  {
    hide Reads, Nuls;
    if text != [] {
      var less := text[..|text| - 1];
      NulsUp(less, start);
      Unrolled(text, start);
      assert forall k :: 0 <= k < |Nuls(less, start)| ==> Nuls(text, start)[k] == Nuls(less, start)[k];
    } else {
      NoneRead(start);
    }
  }

  lemma NoneRead(start: int)
    ensures Reads([], start) == [] && Nuls([], start) == []
  {
  }

  /** A NUL's replacement ends before the next starts. */
  lemma ReplacementsApart(text: seq<nat>, start: int, k: nat)
    requires k < |Nuls(text, start)|
    ensures 0 <= Starts(Nuls(text, start), start, k) <= |Reads(text, start)| - 3
    ensures k + 1 < |Nuls(text, start)| ==>
              Starts(Nuls(text, start), start, k) + 3 <= Starts(Nuls(text, start), start, k + 1)
  {
    NulsUp(text, start);
    NulsLeft(text, start, k);
  }

  /** Past NUL `k` there is room for those after it. */
  lemma {:induction false} NulsLeft(text: seq<nat>, start: int, k: nat)
    requires k < |Nuls(text, start)|
    ensures Nuls(text, start)[k] + |Nuls(text, start)| - k <= start + |text|
    decreases |Nuls(text, start)| - k
  {
    NulsUp(text, start);
    if k + 1 < |Nuls(text, start)| {
      NulsLeft(text, start, k + 1);
    }
  }

  lemma {:induction false} StartsUp(text: seq<nat>, start: int, k: nat, j: nat)
    requires k < j < |Nuls(text, start)|
    ensures Starts(Nuls(text, start), start, k) + 3 <= Starts(Nuls(text, start), start, j)
    decreases j
  {
    ReplacementsApart(text, start, j - 1);
    if k < j - 1 {
      StartsUp(text, start, k, j - 1);
    }
  }

  /** Just `lo` NULs' replacements start at or before byte `x`. */
  ghost predicate Below(nuls: seq<int>, start: int, x: int, lo: nat)
  {
    && lo <= |nuls|
    && (lo > 0 ==> Starts(nuls, start, lo - 1) <= x)
    && (lo < |nuls| ==> x < Starts(nuls, start, lo))
  }

  /** What byte `x` stands for when `lo` replacements start at or before it. */
  function Found(nuls: seq<int>, start: int, x: int, lo: nat): (int, bool)
    requires lo <= |nuls|
  {
    if lo > 0 && x < Starts(nuls, start, lo - 1) + 3 then (nuls[lo - 1], true) else (start + x - 2 * lo, false)
  }

  /** THE NUL BEFORE A BYTE NAMES ITS SOURCE. */
  lemma {:induction false} FoundIsOrigin(text: seq<nat>, start: int, x: nat, lo: nat)
    requires Below(Nuls(text, start), start, x, lo)
    ensures Found(Nuls(text, start), start, x, lo) == Origin(text, start, x)
  {
    hide *;
    if x < |Reads(text, start)| {
      TextRead(text, start);
      var less := text[..|text| - 1];
      Unrolled(text, start);
      NulsUp(less, start);
      if x < |Reads(less, start)| {
        BelowLess(text, start, x, lo);
        FoundIsOrigin(less, start, x, lo);
        FoundLess(text, start, x, lo);
      } else {
        FoundLast(text, start, x, lo);
      }
    } else {
      FoundPast(text, start, x, lo);
    }
  }

  lemma TextRead(text: seq<nat>, start: int)
    ensures Reads(text, start) != [] ==> text != []
  {
  }

  lemma BelowLess(text: seq<nat>, start: int, x: nat, lo: nat)
    requires text != [] && x < |Reads(text[..|text| - 1], start)| && Below(Nuls(text, start), start, x, lo)
    ensures Below(Nuls(text[..|text| - 1], start), start, x, lo) && lo <= |Nuls(text[..|text| - 1], start)|
  {
    hide Reads, Nuls;
    NulsUp(text[..|text| - 1], start);
    Unrolled(text, start);
  }

  lemma FoundLess(text: seq<nat>, start: int, x: nat, lo: nat)
    requires text != [] && x < |Reads(text[..|text| - 1], start)| && lo <= |Nuls(text[..|text| - 1], start)|
    ensures x < |Reads(text, start)| && Origin(text, start, x) == Origin(text[..|text| - 1], start, x)
    ensures lo <= |Nuls(text, start)|
    ensures Found(Nuls(text, start), start, x, lo) == Found(Nuls(text[..|text| - 1], start), start, x, lo)
  {
    hide Reads, Nuls;
    Unrolled(text, start);
    assert Reads(text, start)[x] == Reads(text, start)[..|Reads(text[..|text| - 1], start)|][x];
  }

  lemma AllBelow(text: seq<nat>, start: int, x: nat, lo: nat)
    requires Below(Nuls(text, start), start, x, lo) && x > |Reads(text, start)| - 3
    ensures lo == |Nuls(text, start)|
  {
    hide Reads, Nuls;
    if lo < |Nuls(text, start)| {
      ReplacementsApart(text, start, lo);
    }
  }

  lemma FoundLast(text: seq<nat>, start: int, x: nat, lo: nat)
    requires text != [] && |Reads(text[..|text| - 1], start)| <= x < |Reads(text, start)| && Below(Nuls(text, start), start, x, lo)
    ensures Found(Nuls(text, start), start, x, lo) == Origin(text, start, x)
  {
    hide Reads, Nuls;
    var less := text[..|text| - 1];
    NulsUp(less, start);
    Unrolled(text, start);
    if text[|text| - 1] == 0 {
      NulsUp(text, start);
      var last: nat := |Nuls(text, start)| - 1;
      if lo < last {
        StartsUp(text, start, lo, last);
      }
    } else {
      AllBelow(text, start, x, lo);
      if lo > 0 {
        ReplacementsApart(less, start, lo - 1);
      }
    }
  }

  lemma FoundPast(text: seq<nat>, start: int, x: nat, lo: nat)
    requires x >= |Reads(text, start)| && Below(Nuls(text, start), start, x, lo)
    ensures Found(Nuls(text, start), start, x, lo) == Origin(text, start, x)
  {
    hide Reads, Nuls;
    AllBelow(text, start, x, lo);
    if lo > 0 {
      ReplacementsApart(text, start, lo - 1);
    }
  }

  lemma Unrolled(text: seq<nat>, start: int)
    requires text != []
    ensures var less, byte, at := text[..|text| - 1], text[|text| - 1], start + |text| - 1;
            && Nuls(text, start) == Nuls(less, start) + (if byte == 0 then [at] else [])
            && |Reads(text, start)| == |Reads(less, start)| + (if byte == 0 then 3 else 1)
            && Reads(text, start)[..|Reads(less, start)|] == Reads(less, start)
            && forall x :: |Reads(less, start)| <= x < |Reads(text, start)| ==>
                 Reads(text, start)[x].source == at && Reads(text, start)[x].nul == (byte == 0)
  {
  }

  lemma ReadsUp(text: seq<nat>, start: int)
    requires text != []
    ensures Reads(text, start) == Reads(text[..|text| - 1], start) + ReadOf(text[|text| - 1], start + |text| - 1)
  {
  }

  /** THE TWO UNDO EACH OTHER: a byte read of a source byte is that byte, or one of the three that stand for it as a NUL. */
  lemma {:induction false} OriginIsRead(text: seq<nat>, start: int, x: nat)
    requires x < |Reads(text, start)|
    ensures var (source, nul) := Origin(text, start, x);
            && start <= source < start + |text| && (nul <==> text[source - start] == 0)
            && (!nul ==> Reads(text, start)[x].byte == text[source - start])
  {
    var less := text[..|text| - 1];
    if x < |Reads(less, start)| {
      OriginIsRead(less, start, x);
    }
  }

  /** and the bytes read of a source byte start past those of the ones before it. */
  lemma {:induction false} ReadOfSource(text: seq<nat>, start: int, i: nat, j: nat)
    requires i < |text| && j < if text[i] == 0 then 3 else 1
    ensures var x := i + 2 * |Nuls(text[..i], start)| + j;
            && x < |Reads(text, start)| && Origin(text, start, x) == (start + i, text[i] == 0)
            && (text[i] == 0 ==> Reads(text, start)[x].byte == REPLACEMENT[j])
  {
    hide Reads, Nuls;
    var less := text[..|text| - 1];
    NulsUp(less, start);
    Unrolled(text, start);
    if i < |less| {
      ReadOfSource(less, start, i, j);
      assert text[..i] == less[..i];
    } else {
      assert text[..i] == less;
      ReadsUp(text, start);
    }
  }

  /** The text that bytes read stand for: of those of one source byte, the first. */
  ghost function Restored(got: seq<Read>): seq<nat>
  {
    if got == [] then []
    else
      var last := got[|got| - 1];
      Restored(got[..|got| - 1]) +
      if |got| > 1 && got[|got| - 2].source == last.source then [] else [if last.nul then 0 else last.byte]
  }

  lemma RestoredOn(got: seq<Read>, last: Read)
    ensures Restored(got + [last]) ==
            Restored(got) +
            if got != [] && got[|got| - 1].source == last.source then [] else [if last.nul then 0 else last.byte]
  {
    var all := got + [last];
    assert all[..|all| - 1] == got;
  }

  /** A LINE READ IS RESTORED, byte by byte. */
  lemma {:induction false} LineRestored(text: seq<nat>, start: int)
    ensures Restored(Reads(text, start)) == text
    ensures text != [] ==>
              Reads(text, start) != [] && Reads(text, start)[|Reads(text, start)| - 1].source == start + |text| - 1
  {
    hide Reads, ReadOf, Restored;
    NoneRead(start);
    if text == [] {
      NoneRestored(start);
    } else {
      var less, byte, at := text[..|text| - 1], text[|text| - 1], start + |text| - 1;
      LineRestored(less, start);
      LastRead(text, start);
      RestoredMore(Reads(less, start), byte, at);
      assert text == less + [byte];
    }
  }

  lemma NoneRestored(start: int)
    ensures Restored(Reads([], start)) == []
  {
  }

  lemma LastRead(text: seq<nat>, start: int)
    requires text != []
    ensures var more := ReadOf(text[|text| - 1], start + |text| - 1);
            && Reads(text, start) == Reads(text[..|text| - 1], start) + more
            && more != [] && more[|more| - 1].source == start + |text| - 1
  {
  }

  lemma RestoredMore(got: seq<Read>, byte: nat, at: int)
    requires got != [] ==> got[|got| - 1].source < at
    ensures Restored(got + ReadOf(byte, at)) == Restored(got) + [byte]
  {
    hide Restored;
    var more := ReadOf(byte, at);
    RestoredOn(got, more[0]);
    if byte == 0 {
      RestoredOn(got + [more[0]], more[1]);
      RestoredOn(got + [more[0]] + [more[1]], more[2]);
      assert got + more == got + [more[0]] + [more[1]] + [more[2]];
    } else {
      assert more == [more[0]];
    }
  }

  // ---------- Reading a line ----------

  lemma Prefix(source: seq<nat>, start: nat, at: nat)
    requires start <= at < |source|
    ensures var text := source[start..at + 1];
            text[..|text| - 1] == source[start..at] && text[|text| - 1] == source[at]
  {
  }

  lemma {:induction false} PrefixNuls(source: seq<nat>, start: nat, at: nat, end: nat)
    requires start <= at <= end <= |source|
    ensures |Nuls(source[start..at], start)| <= |Nuls(source[start..end], start)|
    decreases end - at
  {
    if at < end {
      PrefixNuls(source, start, at, end - 1);
      Prefix(source, start, end - 1);
    }
  }

  /** The line of source bytes `start` to `end`, which holds `count` NULs, as it is read. The room taken is all
      the bytes it needs: no byte is put past it. */
  method NormalizeLine(source: seq<nat>, start: nat, end: nat, count: nat) returns (view: View)
    requires start <= end <= |source| && count == |Nuls(source[start..end], start)|
    ensures view.bytes == Bytes(Reads(source[start..end], start)) + [LINE_FEED, 0]
    ensures view.nuls == Nuls(source[start..end], start)
  {
    hide Reads, Nuls, ReadOf, Bytes;
    ghost var text := source[start..end];
    NulsUp(text, start);
    var length := end - start + 2 * count;
    var bytes, nuls := new nat[length + 2], new int[count];
    var out, found := 0, 0;
    EmptyLine(source, start);
    for at := start to end
      invariant out == |Reads(source[start..at], start)| && found == |Nuls(source[start..at], start)|
      invariant found <= nuls.Length && out + 2 <= bytes.Length
      invariant bytes[..out] == Bytes(Reads(source[start..at], start)) && nuls[..found] == Nuls(source[start..at], start)
    {
      ghost var was, had := Reads(source[start..at], start), Nuls(source[start..at], start);
      ReadOn(source, start, at);
      PrefixNuls(source, start, at + 1, end);
      NulsUp(source[start..at + 1], start);
      ReadBytes(source[at], at);
      BytesOn(was, ReadOf(source[at], at));
      if source[at] == 0 {
        nuls[found] := at;
        found := found + 1;
      }
      out := WriteByte(bytes, out, source[at]);
      assert nuls[..found] == had + if source[at] == 0 then [at] else [];
    }
    bytes[out], bytes[out + 1] := LINE_FEED, 0;
    assert bytes[..out + 2] == bytes[..];
    view := View(bytes[..], nuls[..]);
  }

  lemma EmptyLine(source: seq<nat>, start: nat)
    requires start <= |source|
    ensures Reads(source[start..start], start) == [] && Nuls(source[start..start], start) == []
  {
  }

  lemma ReadOn(source: seq<nat>, start: nat, at: nat)
    requires start <= at < |source|
    ensures Reads(source[start..at + 1], start) == Reads(source[start..at], start) + ReadOf(source[at], at)
    ensures Nuls(source[start..at + 1], start) == Nuls(source[start..at], start) + if source[at] == 0 then [at] else []
  {
    Prefix(source, start, at);
  }

  lemma ReadBytes(byte: nat, at: int)
    ensures Bytes(ReadOf(byte, at)) == if byte == 0 then REPLACEMENT else [byte]
  {
  }

  lemma BytesOn(got: seq<Read>, more: seq<Read>)
    ensures Bytes(got + more) == Bytes(got) + Bytes(more)
  {
  }

  /** A byte written as it is read: a NUL as the three that stand for it. */
  method WriteByte(bytes: array<nat>, out: nat, byte: nat) returns (past: nat)
    requires out + (if byte == 0 then 3 else 1) <= bytes.Length
    modifies bytes
    ensures past == out + (if byte == 0 then 3 else 1)
    ensures bytes[..past] == old(bytes[..out]) + if byte == 0 then REPLACEMENT else [byte]
  {
    if byte != 0 {
      bytes[out] := byte;
      past := out + 1;
    } else {
      bytes[out], bytes[out + 1], bytes[out + 2] := 0xEF, 0xBF, 0xBD;
      past := out + 3;
    }
  }

  // ---------- Where a byte read comes from ----------

  /** The source byte of byte `index` of a NUL-bearing line, and whether it is of a replacement. Every difference
      taken fits in the width it is taken in. */
  method DenormalizedOffset(view: View, ghost text: seq<nat>, start: nat, index: nat) returns (source: int, nul: bool)
    requires view.nuls == Nuls(text, start) && start + |text| <= INT32_MAX && |Reads(text, start)| <= INT32_MAX / 2
    requires index <= INT32_MAX / 2
    ensures (source, nul) == Origin(text, start, index)
    ensures source <= INT32_MAX || index > |Reads(text, start)|
  {
    hide Reads, Nuls, Origin;
    NulsUp(text, start);
    var lo, hi := 0, |view.nuls|;
    while lo < hi
      invariant lo <= hi <= |view.nuls|
      invariant lo > 0 ==> Starts(view.nuls, start, lo - 1) <= index
      invariant hi < |view.nuls| ==> index < Starts(view.nuls, start, hi)
    {
      var mid := lo + (hi - lo) / 2;
      ReplacementsApart(text, start, mid);
      assert 0 <= view.nuls[mid] - start <= INT32_MAX && Starts(view.nuls, start, mid) <= INT32_MAX;
      if Starts(view.nuls, start, mid) <= index {
        lo := mid + 1;
      } else {
        hi := mid;
      }
    }
    FoundIsOrigin(text, start, index, lo);
    if lo > 0 && index < Starts(view.nuls, start, lo - 1) + 3 {
      return view.nuls[lo - 1], true;
    }
    return start + index - 2 * lo, false;
  }

  // ---------- The runs of a line's bytes ----------

  /** A slice of a line to be put at the end of a map: the `length` bytes of line `line` from its byte `first` on,
      as content from `offset` on. */
  datatype Part = Part(text: seq<nat>, start: nat, line: int, first: nat, length: int, offset: int, indent: int)

  /** Map `g` answers for the part's first `upto` bytes with the source bytes they stand for. */
  ghost predicate Derived(part: Part, marks: seq<Mark>, g: Map, upto: int)
  {
    && (upto > 0 ==> Runs(marks, g))
    && forall x :: 0 <= x < upto ==> DerivedAt(part, marks, g, x)
  }

  ghost predicate DerivedAt(part: Part, marks: seq<Mark>, g: Map, x: nat)
    requires Runs(marks, g)
  {
    var source := Origin(part.text, part.start, part.first + x).0;
    At(marks, g, part.offset + x) == Spot(part.line, source, source + 1, part.indent)
  }

  /** Where the runs put for a part stand before its byte `done`, `k` the first NUL whose replacement ends past it. */
  ghost predicate Deriving(was: seq<Mark>, m: Map, part: Part, marks: seq<Mark>, g: Map, done: nat, k: nat)
    requires In(was, m)
  {
    var at := part.offset + m.offset;
    && (done == 0 ==> marks == was && g == m)
    && g.offset == m.offset && Open(marks, g, at + done) && In(marks, g)
    && (done > 0 ==>
          && g.count > 0 && marks[g.first].at <= at && FrontKept(was, m, at, marks, g)
          && End(marks, g) < at + done)
    && Derived(part, marks, g, done)
    && OthersKept(was, m, at, marks) && Grew(was, m, marks, g, done > 0) && (AllWide(was) ==> AllWide(marks))
    && Ahead(part, done, k)
  }

  /** NUL `k` of the part's line is the first whose replacement ends past the part's byte `done`. */
  ghost predicate Ahead(part: Part, done: nat, k: nat)
  {
    var nuls := Nuls(part.text, part.start);
    && k <= |nuls|
    && (k > 0 ==> Starts(nuls, part.start, k - 1) + 3 <= part.first + done)
    && (k < |nuls| ==> part.first + done < Starts(nuls, part.start, k) + 3)
    && (k < |nuls| && done > 0 ==> part.first + done <= Starts(nuls, part.start, k))
  }

  /** The run of a part's bytes from `done` on. */
  function RunOf(nuls: seq<int>, part: Part, done: nat, k: nat): Mark
    requires k <= |nuls|
  {
    var inside := k < |nuls| && Starts(nuls, part.start, k) <= part.first + done;
    Mark(part.offset + done, part.line, if inside then nuls[k] else part.start + part.first + done - 2 * k, 1,
         if inside then 0 else 1, part.indent)
  }

  /** The part's byte the next run starts at. */
  function After(nuls: seq<int>, part: Part, done: nat, k: nat): int
    requires k <= |nuls|
  {
    var to :=
      if k == |nuls| then part.length
      else
        var at := Starts(nuls, part.start, k) - part.first;
        if at <= done then at + 3 else at;
    if to < part.length then to else part.length
  }

  /** The run gives each of its bytes the source it stands for. */
  lemma RunDerives(part: Part, done: nat, k: nat, base: int, x: nat)
    requires Ahead(part, done, k) && done < part.length && done <= x < After(Nuls(part.text, part.start), part, done, k)
    ensures var mark := RunOf(Nuls(part.text, part.start), part, done, k);
            var source := Origin(part.text, part.start, part.first + x).0;
            SpotOf(mark.(at := mark.at + base), part.offset + x + base) == Spot(part.line, source, source + 1, part.indent)
  {
    hide Reads, Nuls, Origin;
    var nuls := Nuls(part.text, part.start);
    if k < |nuls| && Starts(nuls, part.start, k) <= part.first + done {
      ReplacementsApart(part.text, part.start, k);
      FoundIsOrigin(part.text, part.start, part.first + x, k + 1);
    } else {
      FoundIsOrigin(part.text, part.start, part.first + x, k);
    }
  }

  lemma RunAhead(part: Part, done: nat, k: nat)
    requires Ahead(part, done, k) && done < part.length
    ensures var nuls := Nuls(part.text, part.start);
            var inside := k < |nuls| && Starts(nuls, part.start, k) <= part.first + done;
            var next := After(nuls, part, done, k);
            && done < next <= part.length
            && (next < part.length ==> Ahead(part, next, if inside then k + 1 else k))
  {
    hide Reads, Nuls;
    if k < |Nuls(part.text, part.start)| {
      ReplacementsApart(part.text, part.start, k);
    }
  }

  /** A run put for a part. */
  lemma PartStep(was: seq<Mark>, m: Map, part: Part, marks: seq<Mark>, g: Map, done: nat, k: nat)
    requires Open(was, m, part.offset + m.offset) && Deriving(was, m, part, marks, g, done, k) && done < part.length
    ensures var nuls := Nuls(part.text, part.start);
            var mark := RunOf(nuls, part, done, k);
            var own, next := mark.(at := mark.at + m.offset), After(nuls, part, done, k);
            && own.at == part.offset + done + m.offset && own.width == 1 && Open(marks, g, own.at)
            && Derived(part, Put(marks, g, own), PutMap(marks, g, own), next)
  {
    hide *;
    DerivingParts(was, m, part, marks, g, done, k);
    var nuls := Nuls(part.text, part.start);
    var mark := RunOf(nuls, part, done, k);
    var own, next := mark.(at := mark.at + m.offset), After(nuls, part, done, k);
    RunOfIs(nuls, part, done, k);
    PutRuns(marks, g, own);
    forall x: nat | 0 <= x < next
      ensures DerivedAt(part, Put(marks, g, own), PutMap(marks, g, own), x)
    {
      PutAnswers(marks, g, own, part.offset + x);
      if x < done {
        DerivedParts(part, marks, g, done, x);
      } else {
        RunDerives(part, done, k, m.offset, x);
      }
      DerivedIs(part, Put(marks, g, own), PutMap(marks, g, own), x);
    }
    DerivedFrom(part, Put(marks, g, own), PutMap(marks, g, own), next);
  }

  lemma RunOfIs(nuls: seq<int>, part: Part, done: nat, k: nat)
    requires k <= |nuls|
    ensures RunOf(nuls, part, done, k).at == part.offset + done
    ensures RunOf(nuls, part, done, k).width == 1
  {
  }

  lemma DerivedParts(part: Part, marks: seq<Mark>, g: Map, upto: int, x: nat)
    requires Derived(part, marks, g, upto) && x < upto
    ensures Runs(marks, g) && DerivedAt(part, marks, g, x)
    ensures var source := Origin(part.text, part.start, part.first + x).0;
            At(marks, g, part.offset + x) == Spot(part.line, source, source + 1, part.indent)
  {
  }

  lemma DerivedIs(part: Part, marks: seq<Mark>, g: Map, x: nat)
    requires Runs(marks, g)
    ensures var source := Origin(part.text, part.start, part.first + x).0;
            DerivedAt(part, marks, g, x) <==> At(marks, g, part.offset + x) == Spot(part.line, source, source + 1, part.indent)
  {
  }

  lemma DerivedFrom(part: Part, marks: seq<Mark>, g: Map, upto: int)
    requires Runs(marks, g) && forall x: nat :: 0 <= x < upto ==> DerivedAt(part, marks, g, x)
    ensures Derived(part, marks, g, upto)
  {
  }

  lemma DerivingParts(was: seq<Mark>, m: Map, part: Part, marks: seq<Mark>, g: Map, done: nat, k: nat)
    requires Open(was, m, part.offset + m.offset) && Deriving(was, m, part, marks, g, done, k)
    ensures var at := part.offset + m.offset;
            && (done == 0 ==> marks == was && g == m)
            && k <= |Nuls(part.text, part.start)|
            && g.offset == m.offset && Open(marks, g, at + done) && In(marks, g)
            && (g.count > 0 ==> Runs(marks, g) && marks[g.first].at <= at) && In(was, m)
            && (done > 0 ==>
                  && g.count > 0 && marks[g.first].at <= at && FrontKept(was, m, at, marks, g)
                  && End(marks, g) < at + done)
            && Derived(part, marks, g, done) && Ahead(part, done, k)
            && OthersKept(was, m, at, marks) && Grew(was, m, marks, g, done > 0) && (AllWide(was) ==> AllWide(marks))
  {
    hide RunAt, Derived, OthersKept, FrontKept, AllWide, Grew;
  }

  /** and what it leaves. */
  lemma PartGoesOn(was: seq<Mark>, m: Map, part: Part, marks: seq<Mark>, g: Map, done: nat, k: nat)
    requires Open(was, m, part.offset + m.offset) && Deriving(was, m, part, marks, g, done, k) && done < part.length
    ensures var nuls := Nuls(part.text, part.start);
            var mark := RunOf(nuls, part, done, k);
            var own, next := mark.(at := mark.at + m.offset), After(nuls, part, done, k);
            var inside := k < |nuls| && Starts(nuls, part.start, k) <= part.first + done;
            && Open(marks, g, own.at) && 0 <= done < next <= part.length
            && (next < part.length ==>
                  Deriving(was, m, part, Put(marks, g, own), PutMap(marks, g, own), next, if inside then k + 1 else k))
            && (next == part.length ==> PartDone(was, m, part, Put(marks, g, own), PutMap(marks, g, own)))
            && OthersKept(was, m, part.offset + m.offset, Put(marks, g, own)) && Spares(was, m, Put(marks, g, own))
  {
    hide *;
    DerivingParts(was, m, part, marks, g, done, k);
    var nuls := Nuls(part.text, part.start);
    var mark := RunOf(nuls, part, done, k);
    var own, next := mark.(at := mark.at + m.offset), After(nuls, part, done, k);
    PartStep(was, m, part, marks, g, done, k);
    RunAhead(part, done, k);
    PutRuns(marks, g, own);
    StepKeeps(was, m, part.offset + m.offset, marks, g, own, done == 0);
    GrewOn(was, m, marks, g, own, done > 0);
    if AllWide(was) {
      PutWide(marks, g, own);
    }
    GrewSpares(was, m, Put(marks, g, own), PutMap(marks, g, own));
    PartFrom(was, m, part, Put(marks, g, own), PutMap(marks, g, own), next,
             if k < |nuls| && Starts(nuls, part.start, k) <= part.first + done then k + 1 else k);
  }

  lemma GrewSpares(was: seq<Mark>, m: Map, marks: seq<Mark>, g: Map)
    requires Grew(was, m, marks, g, true)
    ensures Spares(was, m, marks)
  {
  }

  /** The part is of source past that of the `part.offset` bytes of `m`. */
  ghost predicate Started(was: seq<Mark>, m: Map, part: Part)
  {
    && Sourced(was, m, part.offset)
    && (m.count > 0 ==> LastStop(was, m, part.offset) <= Origin(part.text, part.start, part.first).0)
  }

  /** Where a run starts, its source is just past that of the byte before it. */
  lemma NextOrigin(part: Part, done: nat, k: nat)
    requires Ahead(part, done, k) && done > 0
    ensures part.first + done > 0
    ensures Origin(part.text, part.start, part.first + done).0 == Origin(part.text, part.start, part.first + done - 1).0 + 1
  {
    hide Reads, Nuls, Origin;
    var text, start, y := part.text, part.start, part.first + done;
    var nuls := Nuls(text, start);
    if k > 0 {
      ReplacementsApart(text, start, k - 1);
    }
    FoundIsOrigin(text, start, y - 1, k);
    if k < |nuls| && Starts(nuls, start, k) == y {
      ReplacementsApart(text, start, k);
      FoundIsOrigin(text, start, y, k + 1);
    } else {
      FoundIsOrigin(text, start, y, k);
    }
  }

  /** A run's source is that of its first byte, no earlier than the text. */
  lemma RunSource(part: Part, done: nat, k: nat)
    requires Ahead(part, done, k)
    ensures var mark := RunOf(Nuls(part.text, part.start), part, done, k);
            && mark.source == Origin(part.text, part.start, part.first + done).0 >= 0
            && mark.width == 1 && (mark.step == 0 || mark.step == 1)
  {
    hide Reads, Nuls, Origin;
    var nuls := Nuls(part.text, part.start);
    NulsUp(part.text, part.start);
    if k > 0 {
      ReplacementsApart(part.text, part.start, k - 1);
    }
    if k < |nuls| && Starts(nuls, part.start, k) <= part.first + done {
      ReplacementsApart(part.text, part.start, k);
      FoundIsOrigin(part.text, part.start, part.first + done, k + 1);
    } else {
      FoundIsOrigin(part.text, part.start, part.first + done, k);
    }
  }

  /** A run put for a part that goes forward from the map's source goes forward. */
  lemma PartSourced(was: seq<Mark>, m: Map, part: Part, marks: seq<Mark>, g: Map, done: nat, k: nat)
    requires Open(was, m, part.offset + m.offset) && Deriving(was, m, part, marks, g, done, k) && done < part.length
    requires Started(was, m, part) && Sourced(marks, g, part.offset + done)
    ensures var nuls := Nuls(part.text, part.start);
            var mark := RunOf(nuls, part, done, k);
            var own, next := mark.(at := mark.at + m.offset), After(nuls, part, done, k);
            In(marks, g) && Sourced(Put(marks, g, own), PutMap(marks, g, own), part.offset + next)
  {
    hide *;
    DerivingParts(was, m, part, marks, g, done, k);
    var nuls := Nuls(part.text, part.start);
    var mark := RunOf(nuls, part, done, k);
    var own, next := mark.(at := mark.at + m.offset), After(nuls, part, done, k);
    RunOfIs(nuls, part, done, k);
    RunSource(part, done, k);
    RunAhead(part, done, k);
    OneByOne(own, next - done);
    if g.count > 0 {
      if done > 0 {
        DerivedParts(part, marks, g, done, done - 1);
        NextOrigin(part, done, k);
        StopAt(marks, g, part.offset + done);
      } else {
        StartedParts(was, m, part);
      }
    }
    PutSourced(marks, g, part.offset + done, own, next - done);
  }

  lemma OneByOne(mark: Mark, size: int)
    requires mark.width == 1 && (mark.step == 0 || mark.step == 1)
    ensures IsRun(mark, size)
  {
  }

  lemma StartedParts(was: seq<Mark>, m: Map, part: Part)
    requires Started(was, m, part)
    ensures Sourced(was, m, part.offset) && In(was, m)
    ensures m.count > 0 ==> LastStop(was, m, part.offset) <= Origin(part.text, part.start, part.first).0
  {
  }

  /** What runs put for a whole part leave. */
  ghost predicate PartDone(was: seq<Mark>, m: Map, part: Part, marks: seq<Mark>, g: Map)
    requires In(was, m)
  {
    var at := part.offset + m.offset;
    && Derived(part, marks, g, part.length) && FrontKept(was, m, at, marks, g)
    && Grew(was, m, marks, g, true) && (AllWide(was) ==> AllWide(marks))
    && Runs(marks, g) && g.offset == m.offset && End(marks, g) < at + part.length && marks[g.first].at <= at
    && OthersKept(was, m, at, marks)
  }

  lemma PartFrom(was: seq<Mark>, m: Map, part: Part, marks: seq<Mark>, g: Map, done: nat, k: nat)
    requires In(was, m) && done > 0 && Runs(marks, g)
    requires var at := part.offset + m.offset;
             && g.offset == m.offset && marks[g.first].at <= at && FrontKept(was, m, at, marks, g)
             && End(marks, g) < at + done && Derived(part, marks, g, done)
             && OthersKept(was, m, at, marks) && Grew(was, m, marks, g, true) && (AllWide(was) ==> AllWide(marks))
    ensures Ahead(part, done, k) ==> Deriving(was, m, part, marks, g, done, k)
    ensures done == part.length ==> PartDone(was, m, part, marks, g)
  {
    hide RunAt, Derived, OthersKept, FrontKept, AllWide, Grew, Ahead;
  }

  lemma PartStarts(was: seq<Mark>, m: Map, part: Part, k: nat)
    requires Open(was, m, part.offset + m.offset) && Ahead(part, 0, k)
    ensures Deriving(was, m, part, was, m, 0, k)
  {
  }

  /** A run of a part's bytes, and what putting it where there is no room leaves alone. */
  lemma PartStops(was: seq<Mark>, m: Map, part: Part, marks: seq<Mark>, g: Map, done: nat, k: nat)
    requires Open(was, m, part.offset + m.offset) && Deriving(was, m, part, marks, g, done, k)
    ensures OthersKept(was, m, part.offset + m.offset, marks) && In(marks, g) && Spares(was, m, marks)
    ensures OthersKept(was, m, part.offset + m.offset, Moved(marks, g)) && Spares(was, m, Moved(marks, g))
  {
    OthersMoved(was, m, part.offset + m.offset, marks, g);
  }

  /** The runs of a slice of a line of an input that holds NUL, put at the end of `m`: one of the copied bytes up to each
      NUL, one of its three. They answer for each byte with the source `DenormalizedOffset` gives it. */
  method AppendNulLineMarks(c: ContentMarks, m: Map, view: View, part: Part, granted: bool) returns (grown: Map, ok: bool)
    requires view.nuls == Nuls(part.text, part.start) && Open(c.marks, m, part.offset + m.offset)
    modifies c
    ensures part.length <= 0 ==> ok && c.marks == old(c.marks) && grown == m
    ensures ok && part.length > 0 ==> PartDone(old(c.marks), m, part, c.marks, grown)
    ensures ok && part.length > 0 && Started(old(c.marks), m, part) ==> Sourced(c.marks, grown, part.offset + part.length)
    ensures OthersKept(old(c.marks), m, part.offset + m.offset, c.marks) && Spares(old(c.marks), m, c.marks)
    ensures granted && Roomy(old(c.marks), m, RunsFor(part)) ==> ok
    ensures |c.marks| <= Most(old(c.marks), m, RunsFor(part))
    ensures |c.marks| <= Most(old(c.marks), m, 2 * |view.nuls| + 1)
  {
    hide *;
    ghost var was, most := c.marks, 2 * |view.nuls| + 1;
    ghost var used, copied := 0, false;
    MostHolds(was, m, most);
    RunsForIs(part);
    MostHolds(was, m, RunsFor(part));
    grown, ok := m, true;
    var k: nat := FirstAhead(view, part);
    PartStarts(was, m, part, k);
    PartStops(was, m, part, was, m, 0, k);
    DerivingParts(was, m, part, was, m, 0, k);
    if Started(was, m, part) {
      StartedParts(was, m, part);
    }
    var done := 0;
    while done < part.length
      invariant 0 <= done
      invariant done < part.length ==> Deriving(was, m, part, c.marks, grown, done, k)
      invariant (done < part.length || part.length > 0) && Started(was, m, part) ==> Sourced(c.marks, grown, part.offset + done)
      invariant done >= part.length && part.length > 0 ==> done == part.length
      invariant done >= part.length && part.length > 0 ==> PartDone(was, m, part, c.marks, grown)
      invariant part.length <= 0 ==> c.marks == was && grown == m
      invariant OthersKept(was, m, part.offset + m.offset, c.marks) && Spares(was, m, c.marks)
      invariant done <= RunsFor(part) && Most(c.marks, grown, RunsFor(part) - done) <= Most(was, m, RunsFor(part))
      invariant |c.marks| <= Most(was, m, RunsFor(part))
      invariant k <= |view.nuls| && used <= 2 * k + (if copied then 1 else 0) && used <= most
      invariant Most(c.marks, grown, most - used) <= Most(was, m, most) && |c.marks| <= Most(was, m, most)
      invariant copied && done < part.length ==> k < |view.nuls| && view.nuls[k] - part.start + 2 * k <= part.first + done
      decreases part.length - done
    {
      DerivingParts(was, m, part, c.marks, grown, done, k);
      PartStops(was, m, part, c.marks, grown, done, k);
      PartStep(was, m, part, c.marks, grown, done, k);
      PartGoesOn(was, m, part, c.marks, grown, done, k);
      if Started(was, m, part) {
        PartSourced(was, m, part, c.marks, grown, done, k);
      }
      var index := part.first + done;
      var inside, at, source := false, part.first + part.length, 0;
      if k < |view.nuls| {
        at := view.nuls[k] - part.start + 2 * k;
        inside := at <= index;
      }
      source := if inside then view.nuls[k] else part.start + index - 2 * k;
      RunIsOf(view.nuls, part, done, k, at, inside, source);
      var mark := Mark(part.offset + index - part.first, part.line, source, 1, if inside then 0 else 1, part.indent);
      ghost var marks, g, own := c.marks, grown, mark.(at := mark.at + grown.offset);
      RoomyNext(marks, g, own, RunsFor(part) - done);
      MostHolds(marks, g, RunsFor(part) - done);
      MostHolds(was, m, RunsFor(part));
      RoomyNext(marks, g, own, most - used);
      MostHolds(marks, g, most - used);
      grown, ok := c.AppendMark(grown, mark, granted);
      used, copied := used + 1, !inside;
      if !ok {
        return;
      }
      var next := if inside then at + 3 else at;
      k := k + if inside then 1 else 0;
      FewerRoomy(c.marks, grown, RunsFor(part) - done - 1,
                 part.first + RunsFor(part) - if next < part.first + part.length then next else part.first + part.length);
      done := (if next < part.first + part.length then next else part.first + part.length) - part.first;
    }
  }

  lemma RunIsOf(nuls: seq<int>, part: Part, done: nat, k: nat, at: int, inside: bool, source: int)
    requires k <= |nuls|
    requires at == if k < |nuls| then nuls[k] - part.start + 2 * k else part.first + part.length
    requires inside <==> k < |nuls| && at <= part.first + done
    requires source == if inside then nuls[k] else part.start + part.first + done - 2 * k
    ensures RunOf(nuls, part, done, k)
            == Mark(part.offset + (part.first + done) - part.first, part.line, source, 1, if inside then 0 else 1, part.indent)
    ensures inside <==> k < |nuls| && Starts(nuls, part.start, k) <= part.first + done
    ensures After(nuls, part, done, k)
            == (if (if inside then at + 3 else at) < part.first + part.length then if inside then at + 3 else at
                else part.first + part.length) - part.first
  {
  }

  /** The first NUL whose replacement ends past the part's first byte. */
  method FirstAhead(view: View, part: Part) returns (k: nat)
    requires view.nuls == Nuls(part.text, part.start)
    ensures Ahead(part, 0, k)
  {
    hide Reads, Nuls;
    var hi := |view.nuls|;
    k := 0;
    while k < hi
      invariant k <= hi <= |view.nuls|
      invariant k > 0 ==> Starts(view.nuls, part.start, k - 1) + 3 <= part.first
      invariant hi < |view.nuls| ==> part.first < Starts(view.nuls, part.start, hi) + 3
    {
      var mid := k + (hi - k) / 2;
      if Starts(view.nuls, part.start, mid) + 3 <= part.first {
        k := mid + 1;
      } else {
        hi := mid;
      }
    }
  }

  /** The most runs a part is put as: one for each byte, or the one put whatever its length. */
  ghost function RunsFor(part: Part): nat
  {
    if part.length > 0 then part.length else 1
  }

  lemma RunsForIs(part: Part)
    ensures RunsFor(part) == if part.length > 0 then part.length else 1
  {
  }

  /** The runs of a slice of an input's line: of a line without NUL, one run of copied bytes. */
  method AppendLineMarks(c: ContentMarks, m: Map, view: Option<View>, part: Part, granted: bool)
    returns (grown: Map, ok: bool)
    requires Open(c.marks, m, part.offset + m.offset)
    requires if view.Some? then view.value.nuls == Nuls(part.text, part.start) else Nuls(part.text, part.start) == []
    modifies c
    ensures ok && part.length > 0 ==> PartDone(old(c.marks), m, part, c.marks, grown)
    ensures ok && part.length > 0 && Started(old(c.marks), m, part) ==> Sourced(c.marks, grown, part.offset + part.length)
    ensures OthersKept(old(c.marks), m, part.offset + m.offset, c.marks) && Spares(old(c.marks), m, c.marks)
    ensures granted && Roomy(old(c.marks), m, RunsFor(part)) ==> ok
    ensures |c.marks| <= Most(old(c.marks), m, RunsFor(part))
    ensures |c.marks| <= Most(old(c.marks), m, if view.Some? then 2 * |view.value.nuls| + 1 else 1)
  {
    hide *;
    if view.Some? {
      grown, ok := AppendNulLineMarks(c, m, view.value, part, granted);
    } else {
      ghost var was := c.marks;
      PlainAhead(part);
      PartStarts(was, m, part, 0);
      PartStops(was, m, part, was, m, 0, 0);
      var own := Mark(part.offset + m.offset, part.line, part.start + part.first, 1, 1, part.indent);
      if part.length > 0 {
        PartStep(was, m, part, was, m, 0, 0);
        PartGoesOn(was, m, part, was, m, 0, 0);
        if Started(was, m, part) {
          StartedParts(was, m, part);
          PartSourced(was, m, part, was, m, 0, 0);
        }
      } else {
        OthersFirst(was, m, own);
        GrewFirst(was, m, own);
      }
      RunsForIs(part);
      FewerRoomy(was, m, RunsFor(part), 1);
      RoomyNext(was, m, own, RunsFor(part));
      RoomyNext(was, m, own, 1);
      MostHolds(was, m, 1);
      MostHolds(was, m, RunsFor(part));
      RunIsOf([], part, 0, 0, part.first + part.length, false, part.start + part.first);
      grown, ok := c.AppendMark(m, Mark(part.offset, part.line, part.start + part.first, 1, 1, part.indent), granted);
    }
  }

  lemma PlainAhead(part: Part)
    requires Nuls(part.text, part.start) == []
    ensures Ahead(part, 0, 0)
  {
  }

  lemma GrewFirst(was: seq<Mark>, m: Map, mark: Mark)
    requires Open(was, m, mark.at)
    ensures Spares(was, m, Put(was, m, mark))
  {
    hide Put, PutMap;
    GrewOn(was, m, was, m, mark, false);
  }
}
