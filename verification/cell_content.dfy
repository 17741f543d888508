/** A table cell's content assembled from its line: its bytes, escaped pipes contracted, and the map of where each is from. */
module CellContents {
  import opened Basics
  import opened ContentMaps
  import opened NulLines

  const BACKSLASH: nat := 92
  const PIPE: nat := 124

  /** Whether the cell's byte `i` begins an escaped pipe. */
  predicate Escapes(cell: seq<nat>, i: nat) {
    i + 1 < |cell| && cell[i] == BACKSLASH && cell[i + 1] == PIPE
  }

  /** The cell from byte `i` on with each escaped pipe one byte. */
  ghost function Contracted(cell: seq<nat>, i: nat): seq<nat>
    decreases |cell| - i
  {
    if i >= |cell| then []
    else if Escapes(cell, i) then [PIPE] + Contracted(cell, i + 2)
    else [cell[i]] + Contracted(cell, i + 1)
  }

  /** A text with each of its pipes escaped, as a cell is written to hold it. */
  ghost function Escaped(text: seq<nat>): seq<nat>
  {
    if text == [] then []
    else (if text[0] == PIPE then [BACKSLASH, PIPE] else [text[0]]) + Escaped(text[1..])
  }

  /** A TEXT WRITTEN INTO A CELL COMES BACK, whatever it is: so a cell can hold any pipe, and any backslash before one. */
  lemma {:induction false} EscapedBack(cell: seq<nat>, i: nat, text: seq<nat>)
    requires i <= |cell| && cell[i..] == Escaped(text)
    ensures Contracted(cell, i) == text
    decreases |text|
  {
    if text != [] {
      var part := if text[0] == PIPE then [BACKSLASH, PIPE] else [text[0]];
      var k: nat := i + |part|;
      assert cell[i..][..|part|] == part && cell[i..][|part|..] == Escaped(text[1..]);
      assert cell[k..] == Escaped(text[1..]);
      assert forall j :: 0 <= j < |part| ==> cell[i + j] == cell[i..][j];
      EscapedStarts(text[1..]);
      assert text[0] != PIPE && k < |cell| ==> cell[k] == Escaped(text[1..])[0] != PIPE;
      EscapedBack(cell, k, text[1..]);
    }
  }

  /** An escaped text begins with no pipe. */
  lemma EscapedStarts(text: seq<nat>)
    ensures Escaped(text) != [] ==> Escaped(text)[0] != PIPE
  {
  }

  /** The cell's bytes that each byte of it stands for: from the first, up to the second. */
  ghost function Cuts(cell: seq<nat>, i: nat): (cuts: seq<(nat, nat)>)
    ensures |cuts| == |Contracted(cell, i)|
    decreases |cell| - i
  {
    if i >= |cell| then []
    else if Escapes(cell, i) then [(i, i + 2)] + Cuts(cell, i + 2)
    else [(i, i + 1)] + Cuts(cell, i + 1)
  }

  /** Where a cell lies: the bytes of line `line` from its byte `offset` on. */
  datatype Place = Place(text: seq<nat>, start: nat, line: int, offset: nat, indent: int)

  /** The cell is bytes of its line as it is read. */
  ghost predicate Lies(cell: seq<nat>, at: Place)
  {
    && at.offset + |cell| <= |Reads(at.text, at.start)|
    && forall i :: 0 <= i < |cell| ==> cell[i] == Reads(at.text, at.start)[at.offset + i].byte
  }

  /** What a content byte stands for: the source of the cell's bytes `cut.0` up to `cut.1`. */
  ghost function SourceOf(at: Place, cut: (nat, nat)): Spot
    requires cut.1 > 0
  {
    Spot(at.line, Origin(at.text, at.start, at.offset + cut.0).0, Origin(at.text, at.start, at.offset + cut.1 - 1).0 + 1,
         if cut.1 == cut.0 + 1 then at.indent else 0)
  }

  ghost predicate AnswersAt(at: Place, marks: seq<Mark>, m: Map, cuts: seq<(nat, nat)>, y: int)
  {
    && In(marks, m) && m.count > 0 && 0 <= y < |cuts| && cuts[y].1 > 0
    && At(marks, m, y) == SourceOf(at, cuts[y])
  }

  // ---------- The source of neighbours ----------

  /** A byte that stands for no NUL is just past the one before it, and just before the one after. */
  lemma {:induction false} OriginNext(text: seq<nat>, start: int, x: nat)
    requires x + 1 < |Reads(text, start)|
    ensures var a, b := Origin(text, start, x), Origin(text, start, x + 1);
            && a.0 <= b.0 && (!a.1 || !b.1 ==> b.0 == a.0 + 1)
  {
    var less := text[..|text| - 1];
    if x + 1 < |Reads(less, start)| {
      OriginNext(less, start, x);
    } else if x < |Reads(less, start)| {
      LastOrigin(less, start);
    }
  }

  /** The last byte read of a text stands for its last byte. */
  lemma LastOrigin(text: seq<nat>, start: int)
    requires Reads(text, start) != []
    ensures Reads(text, start)[|Reads(text, start)| - 1].source == start + |text| - 1
  {
  }

  /** A byte of one scalar alone stands for no NUL. */
  lemma {:induction false} PlainByte(text: seq<nat>, start: int, x: nat)
    requires x < |Reads(text, start)| && Reads(text, start)[x].byte < 0x80
    ensures !Origin(text, start, x).1
  {
    var less := text[..|text| - 1];
    if x < |Reads(less, start)| {
      PlainByte(less, start, x);
    }
  }

  /** An escape stands for two bytes, past the source of the byte before it and before that of the one after. */
  lemma EscapeOrigin(cell: seq<nat>, at: Place, i: nat)
    requires Lies(cell, at) && i < |cell| && Escapes(cell, i)
    ensures var text, start, x := at.text, at.start, at.offset + i;
            && Origin(text, start, x + 1).0 == Origin(text, start, x).0 + 1
            && (i > 0 ==> Origin(text, start, x - 1).0 + 1 <= Origin(text, start, x).0)
            && (i + 2 < |cell| ==> Origin(text, start, x + 1).0 + 1 <= Origin(text, start, x + 2).0)
            && Origin(text, start, x).0 >= 0
  {
    hide Reads, Origin;
    var text, start, x := at.text, at.start, at.offset + i;
    PlainByte(text, start, x);
    PlainByte(text, start, x + 1);
    OriginNext(text, start, x);
    OriginIsRead(text, start, x);
    if i > 0 {
      OriginNext(text, start, x - 1);
    }
    if i + 2 < |cell| {
      OriginNext(text, start, x + 1);
    }
  }

  // ---------- The content so far ----------

  /** A run of bytes no escape begins at is as it was. */
  lemma {:induction false} RunContracts(cell: seq<nat>, from: nat, upto: nat)
    requires from <= upto <= |cell| && forall i :: from <= i < upto ==> !Escapes(cell, i)
    ensures Contracted(cell, from) == cell[from..upto] + Contracted(cell, upto)
    ensures Cuts(cell, from) == Ones(from, upto) + Cuts(cell, upto)
    decreases upto - from
  {
    hide Contracted, Cuts, Ones, Escapes;
    if from < upto {
      PlainContracts(cell, from);
      RunContracts(cell, from + 1, upto);
      OnesOn(from, upto);
      Grouped(cell[from], cell[from + 1..upto], Contracted(cell, upto));
      GroupedCuts((from, from + 1), Ones(from + 1, upto), Cuts(cell, upto));
      assert cell[from..upto] == [cell[from]] + cell[from + 1..upto];
    } else {
      assert Ones(from, upto) == [] && cell[from..upto] == [];
    }
  }

  lemma PlainContracts(cell: seq<nat>, from: nat)
    requires from < |cell| && !Escapes(cell, from)
    ensures Contracted(cell, from) == [cell[from]] + Contracted(cell, from + 1)
    ensures Cuts(cell, from) == [(from, from + 1)] + Cuts(cell, from + 1)
  {
  }

  lemma OnesOn(from: nat, upto: nat)
    requires from < upto
    ensures Ones(from, upto) == [(from, from + 1)] + Ones(from + 1, upto)
  {
  }

  lemma Grouped(x: nat, a: seq<nat>, b: seq<nat>)
    ensures [x] + (a + b) == ([x] + a) + b
  {
  }

  lemma GroupedCuts(x: (nat, nat), a: seq<(nat, nat)>, b: seq<(nat, nat)>)
    ensures [x] + (a + b) == ([x] + a) + b
  {
  }

  ghost function Ones(from: nat, upto: nat): (cuts: seq<(nat, nat)>)
    requires from <= upto
    ensures |cuts| == upto - from
  {
    seq(upto - from, k requires 0 <= k < upto - from => (from + k, from + k + 1))
  }

  lemma EscapeContracts(cell: seq<nat>, from: nat)
    requires from < |cell| && Escapes(cell, from)
    ensures Contracted(cell, from) == [PIPE] + Contracted(cell, from + 2)
    ensures Cuts(cell, from) == [(from, from + 2)] + Cuts(cell, from + 2)
  {
  }

  lemma NoneLeft(cell: seq<nat>, from: nat)
    requires from >= |cell|
    ensures Contracted(cell, from) == [] && Cuts(cell, from) == []
  {
  }

  /** The first `from` bytes of the cell made content and map: a run is next, or an escape past one. */
  ghost predicate Assembled(cell: seq<nat>, at: Place, from: nat, content: seq<nat>, cuts: seq<(nat, nat)>, marks: seq<Mark>, m: Map)
  {
    && from <= |cell| && |cuts| == |content|
    && content + Contracted(cell, from) == Contracted(cell, 0) && cuts + Cuts(cell, from) == Cuts(cell, 0)
    && Sourced(marks, m, |content|) && (from == 0 <==> content == []) && (content == [] ==> m.count == 0)
    && (content != [] ==> cuts[|cuts| - 1].1 == from && AllAnswer(at, marks, m, cuts))
    && (from == 0 || from == |cell| || Escapes(cell, from) || (from >= 2 && Escapes(cell, from - 2)))
  }

  ghost predicate AllAnswer(at: Place, marks: seq<Mark>, m: Map, cuts: seq<(nat, nat)>)
  {
    forall y :: 0 <= y < |cuts| ==> AnswersAt(at, marks, m, cuts, y)
  }

  lemma AssembledParts(cell: seq<nat>, at: Place, from: nat, content: seq<nat>, cuts: seq<(nat, nat)>, marks: seq<Mark>, m: Map)
    requires Assembled(cell, at, from, content, cuts, marks, m) && Lies(cell, at)
    ensures Sourced(marks, m, |content|) && In(marks, m) && Open(marks, m, |content| + m.offset)
    ensures from == 0 <==> content == []
    ensures content != [] ==>
              && m.count > 0 && from > 0 && LastStop(marks, m, |content|) == Origin(at.text, at.start, at.offset + from - 1).0 + 1
              && AllAnswer(at, marks, m, cuts)
    ensures content == [] ==> m.count == 0
    ensures |cuts| == |content| && from <= |cell|
  {
    hide *;
    AssembledIs(cell, at, from, content, cuts, marks, m);
    SourcedParts(marks, m, |content|);
    if content != [] {
      LastAnswers(at, marks, m, cuts, from, |content|);
    }
  }

  lemma AssembledIs(cell: seq<nat>, at: Place, from: nat, content: seq<nat>, cuts: seq<(nat, nat)>, marks: seq<Mark>, m: Map)
    requires Assembled(cell, at, from, content, cuts, marks, m)
    ensures from <= |cell| && |cuts| == |content| && Sourced(marks, m, |content|) && (from == 0 <==> content == [])
    ensures content == [] ==> m.count == 0
    ensures content + Contracted(cell, from) == Contracted(cell, 0) && cuts + Cuts(cell, from) == Cuts(cell, 0)
    ensures content != [] ==> cuts[|cuts| - 1].1 == from && AllAnswer(at, marks, m, cuts)
    ensures from == 0 || from == |cell| || Escapes(cell, from) || (from >= 2 && Escapes(cell, from - 2))
  {
  }

  lemma LastAnswers(at: Place, marks: seq<Mark>, m: Map, cuts: seq<(nat, nat)>, from: nat, n: nat)
    requires n == |cuts| > 0 && cuts[n - 1].1 == from && AllAnswer(at, marks, m, cuts)
    ensures In(marks, m) && m.count > 0 && from > 0
    ensures LastStop(marks, m, n) == Origin(at.text, at.start, at.offset + from - 1).0 + 1
  {
    hide At, Origin;
    assert AnswersAt(at, marks, m, cuts, n - 1);
  }

  /** An escape put: the source of both its bytes. */
  lemma EscapePut(cell: seq<nat>, at: Place, from: nat, content: seq<nat>, cuts: seq<(nat, nat)>, marks: seq<Mark>, m: Map)
    requires Assembled(cell, at, from, content, cuts, marks, m) && Lies(cell, at) && from < |cell| && Escapes(cell, from)
    ensures var first := Origin(at.text, at.start, at.offset + from).0;
            var end := Origin(at.text, at.start, at.offset + from + 1).0 + 1;
            var mark := Mark(|content| + m.offset, at.line, first, end - first, end - first, 0);
            && end - first == 2 && In(marks, m) && Open(marks, m, mark.at)
            && Assembled(cell, at, from + 2, content + [PIPE], cuts + [(from, from + 2)], Put(marks, m, mark), PutMap(marks, m, mark))
  {
    hide *;
    AssembledParts(cell, at, from, content, cuts, marks, m);
    AssembledIs(cell, at, from, content, cuts, marks, m);
    EscapeOrigin(cell, at, from);
    EscapeContracts(cell, from);
    var first := Origin(at.text, at.start, at.offset + from).0;
    var mark := Mark(|content| + m.offset, at.line, first, 2, 2, 0);
    EscapeSourced(marks, m, |content|, at.line, first, 2);
    var r, g, more := Put(marks, m, mark), PutMap(marks, m, mark), cuts + [(from, from + 2)];
    forall y | 0 <= y < |more|
      ensures AnswersAt(at, r, g, more, y)
    {
      if y < |cuts| {
        EarlierAnswer(at, marks, m, cuts, mark, y, (from, from + 2));
      } else {
        NewAnswer(at, r, g, more, y, first);
      }
    }
    AnswerAll(at, r, g, more);
    EscapeFits(cell, from);
    Joined(content, PIPE, Contracted(cell, from + 2));
    JoinedCuts(cuts, (from, from + 2), Cuts(cell, from + 2));
    AssembledFrom(cell, at, from + 2, content + [PIPE], more, r, g);
  }

  lemma EscapeFits(cell: seq<nat>, from: nat)
    requires Escapes(cell, from)
    ensures from + 2 <= |cell|
  {
  }

  lemma Joined(a: seq<nat>, x: nat, b: seq<nat>)
    ensures (a + [x]) + b == a + ([x] + b)
  {
  }

  lemma JoinedCuts(a: seq<(nat, nat)>, x: (nat, nat), b: seq<(nat, nat)>)
    ensures (a + [x]) + b == a + ([x] + b)
  {
  }

  lemma NewAnswer(at: Place, marks: seq<Mark>, m: Map, cuts: seq<(nat, nat)>, y: nat, first: int)
    requires In(marks, m) && m.count > 0 && y < |cuts| && cuts[y].1 == cuts[y].0 + 2 && At(marks, m, y) == Spot(at.line, first, first + 2, 0)
    requires Origin(at.text, at.start, at.offset + cuts[y].0).0 == first
    requires Origin(at.text, at.start, at.offset + cuts[y].0 + 1).0 == first + 1
    ensures AnswersAt(at, marks, m, cuts, y)
  {
  }

  /** What was assembled answers as it did. */
  lemma EarlierAnswer(at: Place, marks: seq<Mark>, m: Map, cuts: seq<(nat, nat)>, mark: Mark, y: nat, cut: (nat, nat))
    requires Sourced(marks, m, |cuts|) && Open(marks, m, mark.at) && mark.at == m.offset + |cuts| && y < |cuts| && AllAnswer(at, marks, m, cuts)
    ensures In(marks, m) && AnswersAt(at, Put(marks, m, mark), PutMap(marks, m, mark), cuts + [cut], y)
  {
    hide At, RunAt, Put, PutMap;
    assert AnswersAt(at, marks, m, cuts, y);
    PutAnswers(marks, m, mark, y);
  }

  lemma AnswerAll(at: Place, marks: seq<Mark>, m: Map, cuts: seq<(nat, nat)>)
    requires forall y :: 0 <= y < |cuts| ==> AnswersAt(at, marks, m, cuts, y)
    ensures AllAnswer(at, marks, m, cuts)
  {
  }

  lemma AssembledFrom(cell: seq<nat>, at: Place, from: nat, content: seq<nat>, cuts: seq<(nat, nat)>, marks: seq<Mark>, m: Map)
    requires 0 < from <= |cell| && |cuts| == |content| > 0
    requires content + Contracted(cell, from) == Contracted(cell, 0) && cuts + Cuts(cell, from) == Cuts(cell, 0)
    requires Sourced(marks, m, |content|) && cuts[|cuts| - 1].1 == from && AllAnswer(at, marks, m, cuts)
    requires from == |cell| || Escapes(cell, from) || (from >= 2 && Escapes(cell, from - 2))
    ensures Assembled(cell, at, from, content, cuts, marks, m)
  {
  }

  /** The run of the cell from `from` up to `upto`. */
  function RunPart(at: Place, from: nat, upto: nat, size: nat): Part {
    Part(at.text, at.start, at.line, at.offset + from, upto - from, size, at.indent)
  }

  /** A run starts past the source of the escape before it. */
  lemma RunStarts(cell: seq<nat>, at: Place, from: nat, upto: nat, content: seq<nat>, cuts: seq<(nat, nat)>, marks: seq<Mark>, m: Map)
    requires Assembled(cell, at, from, content, cuts, marks, m) && Lies(cell, at) && from < upto <= |cell| && !Escapes(cell, from)
    ensures Started(marks, m, RunPart(at, from, upto, |content|)) && Open(marks, m, |content| + m.offset)
  {
    hide *;
    AssembledParts(cell, at, from, content, cuts, marks, m);
    AssembledIs(cell, at, from, content, cuts, marks, m);
    if content != [] {
      EscapeFits(cell, from - 2);
      EscapeOrigin(cell, at, from - 2);
    }
    RunPartIs(at, from, upto, |content|);
    StartedFrom(marks, m, RunPart(at, from, upto, |content|));
  }

  lemma RunPartIs(at: Place, from: nat, upto: nat, size: nat)
    ensures RunPart(at, from, upto, size) == Part(at.text, at.start, at.line, at.offset + from, upto - from, size, at.indent)
  {
  }

  lemma StartedFrom(marks: seq<Mark>, m: Map, part: Part)
    requires Sourced(marks, m, part.offset) && (m.count == 0 || In(marks, m))
    requires m.count > 0 ==> LastStop(marks, m, part.offset) <= Origin(part.text, part.start, part.first).0
    ensures Started(marks, m, part)
  {
  }

  /** A run put: each byte's own source. */
  lemma RunPut(cell: seq<nat>, at: Place, from: nat, upto: nat, content: seq<nat>, cuts: seq<(nat, nat)>, marks: seq<Mark>, m: Map,
               r: seq<Mark>, g: Map)
    requires Assembled(cell, at, from, content, cuts, marks, m) && Lies(cell, at) && from < upto <= |cell|
    requires (forall i :: from <= i < upto ==> !Escapes(cell, i)) && (upto == |cell| || Escapes(cell, upto))
    requires In(marks, m) && PartDone(marks, m, RunPart(at, from, upto, |content|), r, g)
    requires Sourced(r, g, |content| + upto - from)
    ensures Assembled(cell, at, upto, content + cell[from..upto], cuts + Ones(from, upto), r, g)
  {
    hide *;
    AssembledParts(cell, at, from, content, cuts, marks, m);
    AssembledIs(cell, at, from, content, cuts, marks, m);
    RunContracts(cell, from, upto);
    OnesAre(from, upto);
    var part, more := RunPart(at, from, upto, |content|), cuts + Ones(from, upto);
    RunPartIs(at, from, upto, |content|);
    forall y | 0 <= y < |more|
      ensures AnswersAt(at, r, g, more, y)
    {
      if y < |cuts| {
        FrontAnswer(at, marks, m, cuts, part, r, g, Ones(from, upto), y);
      } else {
        PartAnswer(at, marks, m, part, r, g, y - |cuts|);
        RunAnswer(at, r, g, more, y);
      }
    }
    AnswerAll(at, r, g, more);
    RunJoins(content, cell[from..upto], Contracted(cell, upto));
    RunJoinsCuts(cuts, Ones(from, upto), Cuts(cell, upto));
    AssembledFrom(cell, at, upto, content + cell[from..upto], more, r, g);
  }

  lemma RunJoins(a: seq<nat>, b: seq<nat>, c: seq<nat>)
    ensures (a + b) + c == a + (b + c)
  {
  }

  lemma RunJoinsCuts(a: seq<(nat, nat)>, b: seq<(nat, nat)>, c: seq<(nat, nat)>)
    ensures (a + b) + c == a + (b + c)
  {
  }

  lemma OnesAre(from: nat, upto: nat)
    requires from <= upto
    ensures |Ones(from, upto)| == upto - from
    ensures forall k :: 0 <= k < upto - from ==> Ones(from, upto)[k] == (from + k, from + k + 1)
  {
  }

  lemma FrontAnswer(at: Place, marks: seq<Mark>, m: Map, cuts: seq<(nat, nat)>, part: Part, r: seq<Mark>, g: Map, ones: seq<(nat, nat)>, y: nat)
    requires Sourced(marks, m, |cuts|) && y < |cuts| && AllAnswer(at, marks, m, cuts) && part.offset == |cuts|
    requires In(marks, m) && PartDone(marks, m, part, r, g)
    ensures AnswersAt(at, r, g, cuts + ones, y)
  {
    hide At, RunAt, Derived, OthersKept, Grew;
    assert AnswersAt(at, marks, m, cuts, y);
  }

  lemma PartAnswer(at: Place, marks: seq<Mark>, m: Map, part: Part, r: seq<Mark>, g: Map, x: nat)
    requires In(marks, m) && PartDone(marks, m, part, r, g) && x < part.length && part.line == at.line
    ensures In(r, g) && g.count > 0
    ensures At(r, g, part.offset + x)
            == Spot(at.line, Origin(part.text, part.start, part.first + x).0, Origin(part.text, part.start, part.first + x).0 + 1, part.indent)
  {
    hide At, RunAt, OthersKept, Grew, Origin;
    assert DerivedAt(part, r, g, x);
  }

  lemma RunAnswer(at: Place, marks: seq<Mark>, m: Map, cuts: seq<(nat, nat)>, y: nat)
    requires In(marks, m) && m.count > 0 && y < |cuts| && cuts[y].1 == cuts[y].0 + 1
    requires var source := Origin(at.text, at.start, at.offset + cuts[y].0).0; At(marks, m, y) == Spot(at.line, source, source + 1, at.indent)
    ensures AnswersAt(at, marks, m, cuts, y)
  {
  }

  lemma NoneAssembled(cell: seq<nat>, at: Place, marks: seq<Mark>, m: Map)
    requires In(marks, m) && m.count == 0
    ensures Assembled(cell, at, 0, [], [], marks, m)
  {
    SourcedEmpty(marks, m);
  }

  lemma AllAssembled(cell: seq<nat>, at: Place, content: seq<nat>, cuts: seq<(nat, nat)>, marks: seq<Mark>, m: Map)
    requires Assembled(cell, at, |cell|, content, cuts, marks, m)
    ensures content == Contracted(cell, 0) && cuts == Cuts(cell, 0) && Sourced(marks, m, |content|)
    ensures content != [] ==> AllAnswer(at, marks, m, Cuts(cell, 0))
  {
    hide Contracted, Cuts, AllAnswer, Sourced;
    NoneLeft(cell, |cell|);
    assert content + [] == content && cuts + [] == cuts;
  }

  /** A PIPE CELL HOLDS ITS BYTES: its escaped pipes contracted, each byte of it answered with the source it stands for,
      both bytes of an escape for its pipe; and the map goes forward, as one whose content is read into places does. */
  method SetCellContent(c: ContentMarks, m: Map, cell: seq<nat>, at: Place, view: Option<View>, granted: bool)
    returns (content: seq<nat>, grown: Map, ok: bool)
    requires Lies(cell, at) && In(c.marks, m) && m.count == 0
    requires if view.Some? then view.value.nuls == Nuls(at.text, at.start) else Nuls(at.text, at.start) == []
    requires at.start + |at.text| <= INT32_MAX && |Reads(at.text, at.start)| <= INT32_MAX / 2
    modifies c
    ensures old(c.marks) <= c.marks
    ensures ok ==> content == Contracted(cell, 0) && Sourced(c.marks, grown, |content|)
    ensures ok && content != [] ==> AllAnswer(at, c.marks, grown, Cuts(cell, 0))
    ensures granted && |old(c.marks)| + |cell| <= INT32_MAX ==> ok
  {
    hide *;
    ghost var was := c.marks;
    content, grown, ok := [], m, true;
    ghost var cuts: seq<(nat, nat)> := [];
    LiesIn(cell, at);
    NoneAssembled(cell, at, was, m);
    MostOf(was, m, 0);
    var from: nat := 0;
    while from < |cell|
      invariant from <= |cell| && was <= c.marks && Assembled(cell, at, from, content, cuts, c.marks, grown)
      invariant grown.count == 0 || |was| <= grown.first
      invariant |content| <= from && Most(c.marks, grown, 0) <= |was| + |content|
      decreases |cell| - from
    {
      AssembledParts(cell, at, from, content, cuts, c.marks, grown);
      var escaped := EscapesAt(cell, from);
      if escaped {
        var first := SourceByte(view, at, at.offset + from);
        var end := SourceByte(view, at, at.offset + from + 1);
        EscapePut(cell, at, from, content, cuts, c.marks, grown);
        var mark := Mark(|content|, at.line, first, end + 1 - first, end + 1 - first, 0);
        PutAfter(was, c.marks, grown, mark.(at := |content| + grown.offset));
        MostOf(c.marks, grown, 1);
        MostHolds(c.marks, grown, 1);
        RoomyNext(c.marks, grown, mark.(at := |content| + grown.offset), 1);
        grown, ok := c.AppendMark(grown, mark, granted);
        if !ok {
          return;
        }
        content, cuts, from := content + [PIPE], cuts + [(from, from + 2)], from + 2;
      } else {
        var upto := RunEndAt(cell, from);
        RunStarts(cell, at, from, upto, content, cuts, c.marks, grown);
        ghost var marks, g := c.marks, grown;
        RunPartIs(at, from, upto, |content|);
        RunsForIs(RunPart(at, from, upto, |content|));
        MostOf(c.marks, grown, upto - from);
        MostHolds(c.marks, grown, upto - from);
        grown, ok := AppendLineMarks(c, grown, view, RunPart(at, from, upto, |content|), granted);
        SparesAfter(was, marks, g, c.marks);
        if !ok {
          return;
        }
        DoneAtEnd(marks, g, RunPart(at, from, upto, |content|), c.marks, grown);
        DoneAfter(was, marks, g, RunPart(at, from, upto, |content|), c.marks, grown);
        RunPut(cell, at, from, upto, content, cuts, marks, g, c.marks, grown);
        content, cuts, from := content + cell[from..upto], cuts + Ones(from, upto), upto;
      }
    }
    AllAssembled(cell, at, content, cuts, c.marks, grown);
  }

  lemma LiesIn(cell: seq<nat>, at: Place)
    requires Lies(cell, at)
    ensures at.offset + |cell| <= |Reads(at.text, at.start)|
  {
  }

  method EscapesAt(cell: seq<nat>, i: nat) returns (escaped: bool)
    requires i < |cell|
    ensures escaped == Escapes(cell, i) && (escaped ==> i + 2 <= |cell|)
  {
    escaped := cell[i] == BACKSLASH && i + 1 < |cell| && cell[i + 1] == PIPE;
  }

  /** Where the next escape begins, or the cell ends. */
  method RunEndAt(cell: seq<nat>, from: nat) returns (upto: nat)
    requires from < |cell| && !Escapes(cell, from)
    ensures from < upto <= |cell| && (forall i :: from <= i < upto ==> !Escapes(cell, i)) && (upto == |cell| || Escapes(cell, upto))
  {
    upto := from + 1;
    while upto < |cell| && !(cell[upto] == BACKSLASH && upto + 1 < |cell| && cell[upto + 1] == PIPE)
      invariant from < upto <= |cell| && forall i :: from <= i < upto ==> !Escapes(cell, i)
    {
      upto := upto + 1;
    }
  }

  /** The source of a byte of the line as it is read. */
  method SourceByte(view: Option<View>, at: Place, index: nat) returns (source: int)
    requires if view.Some? then view.value.nuls == Nuls(at.text, at.start) else Nuls(at.text, at.start) == []
    requires at.start + |at.text| <= INT32_MAX && |Reads(at.text, at.start)| <= INT32_MAX / 2 && index < |Reads(at.text, at.start)|
    ensures source == Origin(at.text, at.start, index).0
  {
    hide Reads, Nuls, Origin;
    if view.Some? {
      var found, _ := DenormalizedOffset(view.value, at.text, at.start, index);
      source := found;
    } else {
      FoundIsOrigin(at.text, at.start, index, 0);
      source := at.start + index;
    }
  }

  /** A map that began past the vector's first runs puts its own past them. */
  lemma PutAfter(was: seq<Mark>, marks: seq<Mark>, m: Map, mark: Mark)
    requires was <= marks && In(marks, m) && Open(marks, m, mark.at) && (m.count == 0 || |was| <= m.first)
    ensures was <= Put(marks, m, mark) && |was| <= PutMap(marks, m, mark).first
    ensures was <= Moved(marks, m)
  {
  }

  lemma SparesAfter(was: seq<Mark>, marks: seq<Mark>, m: Map, after: seq<Mark>)
    requires was <= marks && Spares(marks, m, after) && (m.count == 0 || |was| <= m.first)
    ensures was <= after
  {
    assert forall k :: 0 <= k < |was| ==> after[k] == marks[k] == was[k];
  }

  lemma DoneAtEnd(marks: seq<Mark>, m: Map, part: Part, after: seq<Mark>, g: Map)
    requires In(marks, m) && PartDone(marks, m, part, after, g)
    ensures Most(after, g, 0) == |after|
  {
    hide Derived, FrontKept, OthersKept, AllWide, Runs;
  }

  lemma DoneAfter(was: seq<Mark>, marks: seq<Mark>, m: Map, part: Part, after: seq<Mark>, g: Map)
    requires was <= marks && In(marks, m) && PartDone(marks, m, part, after, g) && (m.count == 0 || |was| <= m.first)
    ensures |was| <= g.first
  {
  }
}
