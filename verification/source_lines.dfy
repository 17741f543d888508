/** The index of an input's physical lines, which grows as its text does. */
module SourceLines {
  import opened Basics
  import opened ByteScan

  const SOURCE_CAPACITY: nat := INT32_MAX / 2

  /** A line: where it starts, where it ends before its terminator, and the number of its facts, 0 for none. */
  datatype Line = Line(start: nat, end: nat, facts: nat)

  /** What an index says of a line: its extent, and the NULs in it. */
  datatype Extent = Extent(start: nat, end: nat, nuls: nat)

  // ---------- The lines of a text ----------

  /** Where the line of the byte `from` ends. */
  ghost function LineEnd(text: seq<bv8>, from: nat): (end: nat)
    requires from <= |text|
    ensures from <= end <= |text| && NoLineEnd(text, from, end) && (end < |text| ==> IsLineEnd(text[end]))
    decreases |text| - from
  {
    if from == |text| || IsLineEnd(text[from]) then from else LineEnd(text, from + 1)
  }

  /** Where the line after one that ends at `end` starts: past CR, LF or CR LF. */
  function After(text: seq<bv8>, end: nat): (next: nat)
    requires end <= |text|
    ensures end <= next <= |text|
  {
    var cr := if end < |text| && text[end] == CR then end + 1 else end;
    if cr < |text| && text[cr] == LF then cr + 1 else cr
  }

  ghost function Nuls(text: seq<bv8>, from: nat, upto: nat): nat
    requires from <= upto <= |text|
    decreases upto - from
  {
    if from == upto then 0 else Nuls(text, from, upto - 1) + if text[upto - 1] == NUL then 1 else 0
  }

  ghost function ExtentAt(text: seq<bv8>, start: nat): Extent
    requires start <= |text|
  {
    var end := LineEnd(text, start);
    Extent(start, end, Nuls(text, start, end))
  }

  /** The first `n` lines of a text, or all when it has fewer, and where the one after them starts. */
  ghost function Walk(text: seq<bv8>, n: nat): (r: (seq<Extent>, nat))
    ensures r.1 <= |text| && |r.0| <= n
  {
    if n == 0 then ([], 0)
    else
      var (lines, at) := Walk(text, n - 1);
      if at == |text| then (lines, at) else (lines + [ExtentAt(text, at)], After(text, LineEnd(text, at)))
  }

  /** THE LINES OF A TEXT, scanned once from its start. */
  ghost function Index(text: seq<bv8>): seq<Extent>
  {
    Walk(text, |text|).0
  }

  lemma {:induction false} WalkGrows(text: seq<bv8>, n: nat)
    ensures var (lines, at) := Walk(text, n);
            && (at < |text| ==> |lines| == n) && at >= |lines|
            && (n > 0 ==> Walk(text, n - 1).1 <= at && (Walk(text, n - 1).1 < |text| ==> Walk(text, n - 1).1 < at))
  {
    hide LineEnd, Nuls;
    if n > 0 {
      WalkGrows(text, n - 1);
    }
  }

  /** Once at its end the walk stays there. */
  lemma {:induction false} WalkStays(text: seq<bv8>, n: nat, k: nat)
    requires n <= k && Walk(text, n).1 == |text|
    ensures Walk(text, k) == Walk(text, n)
    decreases k
  {
    if n < k {
      WalkStays(text, n, k - 1);
    }
  }

  /** AN INDEX AT THE END OF ITS TEXT IS THE WHOLE. */
  lemma WalkWhole(text: seq<bv8>, n: nat)
    requires Walk(text, n).1 == |text| && |Walk(text, n).0| == n
    ensures Walk(text, n).0 == Index(text)
  {
    hide Walk;
    WalkGrows(text, n);
    WalkStays(text, n, |text|);
  }

  // ---------- A text grown at its end ----------

  ghost predicate Extends(text: seq<bv8>, more: seq<bv8>)
  {
    |text| <= |more| && more[..|text|] == text
  }

  lemma SameByte(text: seq<bv8>, more: seq<bv8>, i: nat)
    requires Extends(text, more) && i < |text|
    ensures more[i] == text[i]
  {
    assert more[i] == more[..|text|][i];
  }

  /** A line that ended stays as it was, and goes on from where it ended when it did not. */
  lemma {:induction false} LineEndGrows(text: seq<bv8>, more: seq<bv8>, from: nat)
    requires Extends(text, more) && from <= |text|
    ensures LineEnd(more, from) == LineEnd(more, LineEnd(text, from))
    ensures LineEnd(text, from) < |text| ==> LineEnd(more, from) == LineEnd(text, from)
    decreases |text| - from
  {
    if from < |text| {
      SameByte(text, more, from);
      if !IsLineEnd(text[from]) {
        LineEndGrows(text, more, from + 1);
      }
    }
  }

  lemma {:induction false} NulsGrow(text: seq<bv8>, more: seq<bv8>, from: nat, upto: nat)
    requires Extends(text, more) && from <= upto <= |text|
    ensures Nuls(more, from, upto) == Nuls(text, from, upto)
    decreases upto
  {
    if from < upto {
      SameByte(text, more, upto - 1);
      NulsGrow(text, more, from, upto - 1);
    }
  }

  lemma {:induction false} NulsJoin(text: seq<bv8>, from: nat, mid: nat, upto: nat)
    requires from <= mid <= upto <= |text|
    ensures Nuls(text, from, upto) == Nuls(text, from, mid) + Nuls(text, mid, upto)
    decreases upto
  {
    if mid < upto {
      NulsJoin(text, from, mid, upto - 1);
    }
  }

  /** Whether a byte follows the line that ends at `end`, or its terminator is LF: it stays as it is. */
  ghost predicate Finished(text: seq<bv8>, next: nat)
    requires next <= |text|
  {
    next < |text| || (next > 0 && text[next - 1] == LF)
  }

  lemma AfterGrows(text: seq<bv8>, more: seq<bv8>, end: nat)
    requires Extends(text, more) && end < |text| && IsLineEnd(text[end]) && Finished(text, After(text, end))
    ensures After(more, end) == After(text, end)
  {
    SameByte(text, more, end);
    if end + 1 < |text| {
      SameByte(text, more, end + 1);
    }
  }

  /** A line that is finished is as it is in any text that goes on from this. */
  lemma ExtentGrows(text: seq<bv8>, more: seq<bv8>, start: nat)
    requires Extends(text, more) && start < |text| && Finished(text, After(text, LineEnd(text, start)))
    ensures ExtentAt(more, start) == ExtentAt(text, start)
    ensures After(more, LineEnd(more, start)) == After(text, LineEnd(text, start))
  {
    hide LineEnd, Nuls;
    var end := LineEnd(text, start);
    EndsBefore(text, start);
    LineEndGrows(text, more, start);
    NulsGrow(text, more, start, end);
    AfterGrows(text, more, end);
  }

  lemma EndsBefore(text: seq<bv8>, start: nat)
    requires start < |text| && Finished(text, After(text, LineEnd(text, start)))
    ensures LineEnd(text, start) < |text|
  {
    assert LineEnd(text, start) > start ==> !IsLineEnd(text[LineEnd(text, start) - 1]);
  }

  /** THE LINES BEFORE `complete` ARE THE FINISHED ONES. */
  lemma CompleteFinished(text: seq<bv8>, complete: nat, start: nat)
    requires IsCompleteEnd(text, complete) && start < |text|
    ensures start < complete <==> Finished(text, After(text, LineEnd(text, start)))
  {
    var end := LineEnd(text, start);
    var next := After(text, end);
    if start < complete {
      assert IsLineEnd(text[complete - 1]) && end <= complete - 1;
    } else if Finished(text, next) {
      EndsBefore(text, start);
      assert Completes(text, next);
    }
  }

  /** THE LINES A TEXT HAS FINISHED STAY, however it goes on. */
  lemma {:induction false} WalkKept(text: seq<bv8>, more: seq<bv8>, n: nat)
    requires Extends(text, more) && (n > 0 ==> Finished(text, Walk(text, n).1))
    ensures |Walk(text, n).0| == n ==> Walk(more, n) == Walk(text, n)
  {
    hide LineEnd, Nuls, After, ExtentAt;
    if n > 0 && |Walk(text, n).0| == n {
      WalkGrows(text, n);
      WalkGrows(text, n - 1);
      WalkKept(text, more, n - 1);
      ExtentGrows(text, more, Walk(text, n - 1).1);
    }
  }

  lemma {:induction false} LineEndPast(text: seq<bv8>, from: nat, upto: nat)
    requires from <= upto <= |text| && NoLineEnd(text, from, upto)
    ensures LineEnd(text, from) == LineEnd(text, upto)
    decreases upto - from
  {
    if from < upto {
      LineEndPast(text, from + 1, upto);
    }
  }

  lemma SpanInLine(text: seq<bv8>, from: nat, upto: nat)
    requires upto <= |text| && NoBoundary(text, from, upto)
    ensures NoLineEnd(text, from, upto)
  {
  }

  lemma BoundaryIs(b: bv8)
    ensures IsBoundary(b) <==> b == NUL || b == CR || b == LF
    ensures IsLineEnd(b) <==> b == CR || b == LF
  {
  }

  lemma NulPassed(text: seq<bv8>, from: nat, cursor: nat)
    requires from <= cursor < |text| && text[cursor] == NUL
    ensures LineEnd(text, cursor) == LineEnd(text, cursor + 1)
    ensures Nuls(text, from, cursor + 1) == Nuls(text, from, cursor) + 1
  {
  }

  lemma LineEndsAt(text: seq<bv8>, at: nat)
    requires at <= |text| && (at < |text| ==> IsLineEnd(text[at]))
    ensures LineEnd(text, at) == at
  {
  }

  lemma AfterIs(text: seq<bv8>, end: nat)
    requires end <= |text|
    ensures var cr := if end < |text| && text[end] == CR then end + 1 else end;
            After(text, end) == if cr < |text| && text[cr] == LF then cr + 1 else cr
  {
  }

  lemma {:induction false} NulsNone(text: seq<bv8>, from: nat, upto: nat)
    requires from <= upto <= |text| && NoBoundary(text, from, upto)
    ensures Nuls(text, from, upto) == 0
    decreases upto - from
  {
    if from < upto {
      NulsNone(text, from, upto - 1);
    }
  }

  // ---------- The index ----------

  /** What is said of a line, its NULs read off its facts. */
  ghost function Shown(lines: seq<Line>, facts: seq<nat>): (shown: seq<Extent>)
    ensures |shown| == |lines|
  {
    seq(|lines|, i requires 0 <= i < |lines| => ExtentOf(lines[i], facts))
  }

  function ExtentOf(line: Line, facts: seq<nat>): Extent
  {
    Extent(line.start, line.end, if 0 < line.facts <= |facts| then facts[line.facts - 1] else 0)
  }

  /** Each line that has facts has its own. */
  ghost predicate OwnFacts(lines: seq<Line>, facts: seq<nat>)
  {
    && (forall i :: 0 <= i < |lines| ==> lines[i].facts <= |facts|)
    && (forall i, j :: 0 <= i < j < |lines| && lines[j].facts > 0 ==> lines[i].facts != lines[j].facts)
  }

  /** What an index shows when the lines before the last are as they were, and the last is `line`. */
  lemma ShownLast(lines: seq<Line>, facts: seq<nat>, line: Line, more: seq<nat>)
    requires |facts| <= |more| && forall i :: 0 <= i < |lines| ==> ExtentOf(lines[i], facts) == ExtentOf(lines[i], more)
    ensures Shown(lines + [line], more) == Shown(lines, facts) + [ExtentOf(line, more)]
  {
  }

  /** The facts of one line with NULs added to its count, or made for it. */
  function Counted(facts: seq<nat>, own: nat, nuls: nat): seq<nat>
    requires own <= |facts|
  {
    if nuls == 0 then facts
    else if own > 0 then facts[own - 1 := facts[own - 1] + nuls]
    else facts + [nuls]
  }

  function OwnAfter(facts: seq<nat>, own: nat, nuls: nat): nat
  {
    if nuls > 0 && own == 0 then |facts| + 1 else own
  }

  lemma CountedIs(facts: seq<nat>, own: nat, nuls: nat)
    requires own <= |facts|
    ensures nuls == 0 ==> Counted(facts, own, nuls) == facts && OwnAfter(facts, own, nuls) == own
    ensures nuls > 0 && own > 0 ==>
              Counted(facts, own, nuls) == facts[own - 1 := facts[own - 1] + nuls] && OwnAfter(facts, own, nuls) == own
    ensures nuls > 0 && own == 0 ==>
              Counted(facts, own, nuls) == facts + [nuls] && OwnAfter(facts, own, nuls) == |facts| + 1
  {
  }

  lemma CountedOthers(lines: seq<Line>, facts: seq<nat>, line: Line, end: nat, nuls: nat)
    requires OwnFacts(lines + [line], facts) && line.facts <= |facts|
    ensures var more, own := Counted(facts, line.facts, nuls), OwnAfter(facts, line.facts, nuls);
            && OwnFacts(lines + [Line(line.start, end, own)], more) && |facts| <= |more|
            && (forall i :: 0 <= i < |lines| ==> ExtentOf(lines[i], more) == ExtentOf(lines[i], facts))
            && ExtentOf(Line(line.start, end, own), more).nuls == ExtentOf(line, facts).nuls + nuls
  {
    var more, own := Counted(facts, line.facts, nuls), OwnAfter(facts, line.facts, nuls);
    var was, now := lines + [line], lines + [Line(line.start, end, own)];
    forall i | 0 <= i < |lines|
      ensures ExtentOf(lines[i], more) == ExtentOf(lines[i], facts) && lines[i].facts <= |facts|
    {
      assert was[i] == lines[i] && was[|lines|] == line;
    }
    forall i | 0 <= i < |now|
      ensures now[i].facts <= |more|
    {
      assert was[i].facts <= |facts|;
    }
    forall i, j | 0 <= i < j < |now| && now[j].facts > 0
      ensures now[i].facts != now[j].facts
    {
      assert was[j].facts > 0 ==> was[i].facts != was[j].facts;
      assert was[i].facts <= |facts|;
    }
  }

  /** A line scanned at the end of the index. */
  lemma LineScanned(text: seq<bv8>, lines: seq<Line>, facts: seq<nat>, at: nat, line: Line, more: seq<nat>)
    requires OwnFacts(lines, facts) && Walk(text, |lines|) == (Shown(lines, facts), at) && at < |text|
    requires line.start == at && line.end == LineEnd(text, at)
    requires more == Counted(facts, 0, Nuls(text, at, line.end)) && line.facts == OwnAfter(facts, 0, Nuls(text, at, line.end))
    ensures OwnFacts(lines + [line], more)
    ensures Walk(text, |lines| + 1) == (Shown(lines + [line], more), After(text, line.end))
    ensures Shown(lines + [line], more)[..|lines|] == Shown(lines, facts)
  {
    hide LineEnd, Nuls, After;
    var entry := line.(facts := 0);
    NewLine(lines, facts, entry);
    CountedOthers(lines, facts, entry, line.end, Nuls(text, at, line.end));
    ShownLast(lines, facts, line, more);
  }

  lemma NewLine(lines: seq<Line>, facts: seq<nat>, line: Line)
    requires OwnFacts(lines, facts) && line.facts == 0
    ensures OwnFacts(lines + [line], facts)
  {
  }

  /** The last line of an index scanned on in a text that goes on from where it was. */
  lemma LastScanned(was: seq<bv8>, text: seq<bv8>, others: seq<Line>, last: Line, facts: seq<nat>, line: Line, more: seq<nat>)
    requires Extends(was, text) && OwnFacts(others + [last], facts)
    requires Walk(was, |others| + 1).0 == Shown(others + [last], facts)
    requires last.end <= |was| && line.start == last.start && line.end == LineEnd(text, last.end) && last.facts <= |facts|
    requires more == Counted(facts, last.facts, Nuls(text, last.end, line.end))
    requires line.facts == OwnAfter(facts, last.facts, Nuls(text, last.end, line.end))
    ensures OwnFacts(others + [line], more)
    ensures Walk(text, |others| + 1) == (Shown(others + [line], more), After(text, line.end))
  {
    hide *;
    var n := |others|;
    CountedOthers(others, facts, last, line.end, Nuls(text, last.end, line.end));
    LastWalked(was, others, last, facts);
    WalkGrows(was, n);
    ExtendsParts(was, text);
    FinishedBefore(was, Walk(was, n).1);
    WalkKept(was, text, n);
    LineEndGrows(was, text, last.start);
    NulsGrow(was, text, last.start, last.end);
    NulsJoin(text, last.start, last.end, line.end);
    ShownLast(others, facts, line, more);
    WalkOn(text, n);
    ExtentFrom(line, more, text);
  }

  lemma WalkOn(text: seq<bv8>, n: nat)
    requires Walk(text, n).1 < |text|
    ensures var (lines, at) := Walk(text, n);
            Walk(text, n + 1) == (lines + [ExtentAt(text, at)], After(text, LineEnd(text, at)))
  {
  }

  lemma LastWalked(text: seq<bv8>, others: seq<Line>, last: Line, facts: seq<nat>)
    requires Walk(text, |others| + 1).0 == Shown(others + [last], facts)
    ensures Walk(text, |others|).0 == Shown(others, facts) && last.start == Walk(text, |others|).1 < |text|
    ensures last.start <= last.end <= |text| && last.end == LineEnd(text, last.start)
    ensures ExtentOf(last, facts) == ExtentAt(text, last.start)
    ensures ExtentOf(last, facts).nuls == Nuls(text, last.start, last.end)
    ensures Walk(text, |others| + 1).1 == After(text, last.end)
  {
    hide *;
    ShownParts(others, last, facts);
    WalkLonger(text, |others|);
    ExtentParts(last, facts, text, Walk(text, |others|).1);
  }

  lemma ShownParts(others: seq<Line>, last: Line, facts: seq<nat>)
    ensures |Shown(others, facts)| == |others|
    ensures Shown(others + [last], facts) == Shown(others, facts) + [ExtentOf(last, facts)]
  {
  }

  lemma WalkLonger(text: seq<bv8>, n: nat)
    requires |Walk(text, n + 1).0| == n + 1
    ensures var (lines, at) := Walk(text, n);
            && at < |text| && |lines| == n
            && Walk(text, n + 1).0[..n] == lines && Walk(text, n + 1).0[n] == ExtentAt(text, at)
            && Walk(text, n + 1).1 == After(text, LineEnd(text, at))
  {
    hide LineEnd, Nuls, After, ExtentAt;
    WalkGrows(text, n);
  }

  lemma FinishedBefore(text: seq<bv8>, at: nat)
    requires at < |text|
    ensures Finished(text, at)
  {
  }

  lemma ExtentFrom(line: Line, facts: seq<nat>, text: seq<bv8>)
    requires line.start <= |text| && line.end == LineEnd(text, line.start)
    requires ExtentOf(line, facts).nuls == Nuls(text, line.start, line.end)
    ensures ExtentOf(line, facts) == ExtentAt(text, line.start)
  {
  }

  lemma ExtentParts(line: Line, facts: seq<nat>, text: seq<bv8>, at: nat)
    requires at <= |text| && ExtentOf(line, facts) == ExtentAt(text, at)
    ensures line.start == at && line.end == LineEnd(text, at) && at <= line.end <= |text|
    ensures ExtentOf(line, facts).nuls == Nuls(text, at, line.end)
  {
  }

  /** A line before where the complete lines end is as it is in any text that goes on. */
  lemma LineStays(text: seq<bv8>, lines: seq<Line>, facts: seq<nat>, complete: nat, index: nat)
    requires index < |lines| && Walk(text, |lines|).0 == Shown(lines, facts)
    requires IsCompleteEnd(text, complete) && lines[index].start < complete
    ensures forall more :: Extends(text, more) ==>
              |Walk(more, index + 1).0| == index + 1 && Walk(more, index + 1).0[index] == ExtentOf(lines[index], facts)
  {
    hide *;
    var others, last := lines[..index], lines[index];
    WalkFirst(text, lines, facts, index + 1);
    assert lines[..index + 1] == others + [last];
    LastWalked(text, others, last, facts);
    ShownParts(others, last, facts);
    CompleteFinished(text, complete, last.start);
    forall more | Extends(text, more)
      ensures |Walk(more, index + 1).0| == index + 1 && Walk(more, index + 1).0[index] == ExtentOf(lines[index], facts)
    {
      WalkKept(text, more, index + 1);
    }
  }

  lemma {:induction false} WalkFirst(text: seq<bv8>, lines: seq<Line>, facts: seq<nat>, n: nat)
    requires n <= |lines| && Walk(text, |lines|).0 == Shown(lines, facts)
    ensures Walk(text, n).0 == Shown(lines[..n], facts)
    decreases |lines| - n
  {
    hide Walk;
    if n < |lines| {
      WalkFirst(text, lines, facts, n + 1);
      assert lines[..n + 1] == lines[..n] + [lines[n]];
      LastWalked(text, lines[..n], lines[n], facts);
    } else {
      assert lines[..n] == lines;
    }
  }

  lemma StartsLine(text: seq<bv8>, at: nat)
    requires at < |text|
    ensures at < After(text, LineEnd(text, at))
  {
  }

  lemma WalkStarts(text: seq<bv8>, n: nat)
    requires n > 0 && |Walk(text, n).0| == n
    ensures Walk(text, n).1 > 0
  {
    WalkGrows(text, n);
  }

  /** An index that holds no line the text had not finished is the index of the text grown. */
  lemma IndexStays(was: seq<bv8>, text: seq<bv8>, n: nat)
    requires Extends(was, text) && |Walk(was, n).0| == n
    requires var at := Walk(was, n).1; n > 0 && at > 0 && at < |text| ==> text[at - 1] == LF
    ensures Walk(text, n) == Walk(was, n)
  {
    hide *;
    if n > 0 {
      var at := Walk(was, n).1;
      WalkGrows(was, n);
      ExtendsParts(was, text);
      if at == |text| {
        ExtendsWhole(was, text);
      } else {
        SameByte(was, text, at - 1);
        FinishedAfter(was, at);
        WalkKept(was, text, n);
      }
    } else {
      WalkNone(was);
      WalkNone(text);
    }
  }

  lemma WalkNone(text: seq<bv8>)
    ensures Walk(text, 0) == ([], 0)
  {
  }

  lemma ExtendsWhole(was: seq<bv8>, text: seq<bv8>)
    requires Extends(was, text) && |was| == |text|
    ensures was == text
  {
    assert was == text[..|was|] == text;
  }

  lemma ExtendsParts(was: seq<bv8>, text: seq<bv8>)
    requires Extends(was, text)
    ensures |was| <= |text|
  {
  }

  lemma FinishedAfter(text: seq<bv8>, at: nat)
    requires 0 < at <= |text| && (at < |text| || text[at - 1] == LF)
    ensures Finished(text, at)
  {
  }

  /** An input: its text as far as it has come, the lines scanned of it so far, where the next starts, whether any
      holds NUL, where the last complete line of the text ends, and the bytes scanned for them. */
  class InputLines {
    var source: seq<bv8>
    var lines: seq<Line>
    var facts: seq<nat>
    var scanned: nat
    var mapped: bool
    var complete: nat
    var work: nat
    var endSeen: bool
    var failed: bool
    /** The bytes the scanner looked at, and how often the text grew. */
    ghost var looked: nat
    ghost var grown: nat

    ghost predicate Valid()
      reads this
    {
      && |source| <= SOURCE_CAPACITY
      && OwnFacts(lines, facts)
      && Walk(source, |lines|) == (Shown(lines, facts), scanned)
      && work == scanned && looked <= scanned + grown
      && IsCompleteEnd(source, complete)
      && (mapped <==> facts != []) && (forall f :: 0 <= f < |facts| ==> facts[f] > 0)
    }

    constructor ()
      ensures Valid() && source == [] && lines == [] && !failed && !endSeen
    {
      source, lines, facts := [], [], [];
      scanned, complete, work := 0, 0, 0;
      mapped, endSeen, failed := false, false, false;
      looked, grown := 0, 0;
      assert Shown([], []) == [];
    }

    /** Where the line that `from` is in ends, and the NULs from there to its end. */
    method FindEnd(from: nat) returns (cursor: nat, nuls: nat)
      requires from <= |source|
      ensures cursor == LineEnd(source, from) && from <= cursor <= |source| && nuls == Nuls(source, from, cursor)
    {
      hide LineEnd, Nuls, IsBoundary, NoBoundary;
      nuls := 0;
      var first, _ := SpanEnd(source, from);
      cursor := first;
      SpanInLine(source, from, cursor);
      LineEndPast(source, from, cursor);
      NulsNone(source, from, cursor);
      while cursor < |source| && source[cursor] == NUL
        invariant from <= cursor <= |source| && LineEnd(source, from) == LineEnd(source, cursor)
        invariant nuls == Nuls(source, from, cursor)
        invariant cursor < |source| ==> IsBoundary(source[cursor])
        decreases |source| - cursor
      {
        nuls := nuls + 1;
        var next, _ := SpanEnd(source, cursor + 1);
        BoundaryIs(source[cursor]);
        NulPassed(source, from, cursor);
        SpanInLine(source, cursor + 1, next);
        LineEndPast(source, cursor + 1, next);
        NulsNone(source, cursor + 1, next);
        NulsJoin(source, from, cursor + 1, next);
        cursor := next;
      }
      if cursor < |source| {
        BoundaryIs(source[cursor]);
      }
      LineEndsAt(source, cursor);
    }

    /** THE SOLE SCANNER OF LINES: scans line `entry` from `from` to its end and past its terminator. */
    method ScanLine(entry: Line, from: nat, granted: bool) returns (line: Line, ok: bool)
      requires from <= |source| && entry.facts <= |facts| && scanned <= After(source, LineEnd(source, from))
      modifies this`facts, this`mapped, this`scanned, this`work, this`failed, this`looked
      ensures line.start == entry.start && line.end == LineEnd(source, from)
      ensures ok ==>
                && facts == Counted(old(facts), entry.facts, Nuls(source, from, line.end))
                && line.facts == OwnAfter(old(facts), entry.facts, Nuls(source, from, line.end))
                && mapped == (old(mapped) || Nuls(source, from, line.end) > 0)
                && scanned == After(source, line.end) && work == old(work) + scanned - old(scanned)
                && looked == old(looked) + scanned - from && failed == old(failed)
      ensures !ok ==>
                && failed && facts == old(facts) && line.facts == entry.facts && scanned == old(scanned)
                && mapped == old(mapped) && work == old(work) && looked == old(looked)
      ensures granted || entry.facts > 0 || Nuls(source, from, line.end) == 0 ==> ok
    {
      hide *;
      var cursor, nuls := FindEnd(from);
      AfterIs(source, cursor);
      CountedIs(facts, entry.facts, nuls);
      line := entry.(end := cursor);
      ok := true;
      if cursor < |source| && source[cursor] == CR {
        cursor := cursor + 1;
      }
      if cursor < |source| && source[cursor] == LF {
        cursor := cursor + 1;
      }
      if nuls > 0 {
        if line.facts > 0 {
          facts := facts[line.facts - 1 := facts[line.facts - 1] + nuls];
        } else {
          ok := HasStorage(granted);
          if !ok {
            failed := true;
            return;
          }
          facts := facts + [nuls];
          line := line.(facts := |facts|);
        }
        mapped := true;
      }
      work := work + (cursor - scanned);
      scanned := cursor;
      looked := looked + (cursor - from);
    }

    /** Line `index`, the lines up to it scanned when they are not yet, or none when the text ends before it. */
    method ExtendLines(index: nat, granted: bool) returns (found: Option<Line>)
      requires Valid()
      modifies this`lines, this`facts, this`mapped, this`scanned, this`work, this`failed, this`looked
      ensures Valid() && |old(lines)| <= |lines| && scanned >= old(scanned)
      ensures found == if index < |lines| then Some(lines[index]) else None
      ensures found.None? && !failed ==> scanned == |source|
      ensures granted ==> failed == old(failed)
      ensures index < |old(lines)| ==> lines == old(lines) && scanned == old(scanned) && failed == old(failed)
      ensures |lines| <= if index < |old(lines)| then |old(lines)| else index + 1
      ensures Shown(lines, facts)[..|old(lines)|] == Shown(old(lines), old(facts))
    {
      hide Walk, LineEnd, Nuls, After, Shown, OwnFacts, IsCompleteEnd, ExtentOf;
      while index >= |lines| && scanned < |source|
        invariant Valid() && |old(lines)| <= |lines| && scanned >= old(scanned)
        invariant Shown(lines, facts)[..|old(lines)|] == Shown(old(lines), old(facts))
        invariant granted ==> failed == old(failed)
        invariant |lines| == |old(lines)| ==> lines == old(lines) && scanned == old(scanned) && failed == old(failed)
        invariant |lines| <= if index < |old(lines)| then |old(lines)| else index + 1
        decreases |source| - scanned
      {
        var room := HasStorage(granted);
        if !room {
          failed := true;
          return None;
        }
        ghost var was, had, at := lines, facts, scanned;
        StartsLine(source, scanned);
        var line, ok := ScanLine(Line(scanned, 0, 0), scanned, granted);
        if !ok {
          return None;
        }
        LineScanned(source, was, had, at, line, facts);
        lines := lines + [line];
      }
      found := if index < |lines| then Some(lines[index]) else None;
    }

    /** Line `index` as a reading asks for it: with no end seen, the line is as it says in every text that goes on from this. */
    method Ask(index: nat, granted: bool) returns (found: Option<Line>)
      requires Valid()
      modifies this`lines, this`facts, this`mapped, this`scanned, this`work, this`failed, this`looked, this`endSeen
      ensures Valid() && found == if index < |lines| then Some(lines[index]) else None
      ensures !endSeen && !failed ==>
                found.Some? && forall more :: Extends(source, more) ==>
                  |Walk(more, index + 1).0| == index + 1 && Walk(more, index + 1).0[index] == ExtentOf(found.value, facts)
      ensures granted ==> failed == old(failed)
      ensures endSeen <==> old(endSeen) || (if found.Some? then found.value.start >= complete else !failed)
    {
      found := ExtendLines(index, granted);
      if (if found.Some? then found.value.start >= complete else !failed) {
        endSeen := true;
      }
      if found.Some? && found.value.start < complete {
        LineStays(source, lines, facts, complete, index);
      }
    }

    /** The text grown at its end. The line it had not finished is scanned on from where it ended. */
    method Grow(more: seq<bv8>, granted: bool) returns (ok: bool)
      requires Valid() && |source| + |more| <= SOURCE_CAPACITY
      modifies this
      ensures source == old(source) + more && |lines| == |old(lines)|
      ensures ok ==> Valid() && failed == old(failed)
      ensures !ok ==> failed
      ensures granted ==> ok
      ensures work - old(work) == scanned - old(scanned)
      ensures forall i :: 0 <= i < |lines| - 1 ==> lines[i] == old(lines)[i]
    {
      hide Walk, LineEnd, Nuls, After, Shown, OwnFacts, ExtentOf, IsCompleteEnd;
      ghost var was := source;
      assert (source + more)[..|source|] == source;
      var end, _ := CompleteEnd(source + more, |source|, complete);
      complete := end;
      source := source + more;
      grown := grown + 1;
      ok := true;
      if |lines| > 0 {
        WalkStarts(was, |lines|);
      }
      if |lines| > 0 && scanned < |source| && source[scanned - 1] != LF {
        ok := ScanLastLine(granted, was);
      } else {
        IndexStays(was, source, |lines|);
      }
    }

    /** The line the text had not finished, scanned on. */
    method ScanLastLine(granted: bool, ghost was: seq<bv8>) returns (ok: bool)
      requires |lines| > 0 && Extends(was, source) && |source| <= SOURCE_CAPACITY && OwnFacts(lines, facts)
      requires Walk(was, |lines|) == (Shown(lines, facts), scanned) && scanned > 0 && source[scanned - 1] != LF
      requires work == scanned && looked < scanned + grown && IsCompleteEnd(source, complete)
      requires (mapped <==> facts != []) && forall f :: 0 <= f < |facts| ==> facts[f] > 0
      modifies this`lines, this`facts, this`mapped, this`scanned, this`work, this`failed, this`looked
      ensures |lines| == |old(lines)| && forall i :: 0 <= i < |lines| - 1 ==> lines[i] == old(lines)[i]
      ensures work - old(work) == scanned - old(scanned)
      ensures if ok then Valid() && failed == old(failed) else failed
      ensures granted ==> ok
    {
      hide LineEnd, Nuls, Walk, Shown, ExtentOf, After, IsCompleteEnd;
      var last := |lines| - 1;
      ghost var before, had := lines, facts;
      assert lines == lines[..last] + [lines[last]];
      LastWalked(was, lines[..last], lines[last], facts);
      AfterOn(was, source, lines[last].start, lines[last].end);
      var line;
      line, ok := ScanLine(lines[last], lines[last].end, granted);
      lines := lines[last := line];
      if ok {
        assert lines == before[..last] + [line];
        LastScanned(was, source, before[..last], before[last], had, line, facts);
      }
    }
  }

  /** What was scanned past a line's end is past it still, one byte at most when it is no LF. */
  lemma AfterOn(was: seq<bv8>, text: seq<bv8>, start: nat, end: nat)
    requires Extends(was, text) && start <= |was| && end == LineEnd(was, start)
    ensures After(was, end) <= After(text, LineEnd(text, end))
    ensures After(was, end) > 0 && text[After(was, end) - 1] != LF ==> After(was, end) <= end + 1
  {
    LineEndGrows(was, text, start);
    if end < |was| {
      SameByte(was, text, end);
      if end + 1 < |was| {
        SameByte(was, text, end + 1);
      }
    }
  }
}
