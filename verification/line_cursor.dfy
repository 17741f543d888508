/** The cursor of a line being read: its byte, its virtual column, and the part of a tab it stands in. */
module LineCursors {
  import opened Basics

  const TAB_STOP: nat := 4
  const TAB: Byte := 9
  const SPACE: Byte := 32
  const LF: Byte := 10
  const CR: Byte := 13

  /** Where the cursor stands: `column` counts each scalar once and a tab up to its stop, and `partial` says that it
      is past some of the columns of the tab at `offset`. */
  datatype Cursor = Cursor(offset: nat, column: nat, partial: bool)

  /** A byte that goes on with a scalar begun before it. */
  predicate IsContinuation(b: Byte) {
    0x80 <= b < 0xC0
  }

  /** Its two high bits are a one and a zero. */
  lemma ContinuationBits(b: Byte)
    ensures IsContinuation(b) <==> (b as bv8) & 0xC0 == 0x80
  {
    var bits := b as bv8;
    assert bits & 0xC0 == 0x80 <==> 0x80 <= bits < 0xC0;
  }

  predicate IsSpace(b: Byte) {
    b == SPACE || b == TAB
  }

  /** The byte at `i`, or NUL past the line's end. */
  function PeekAt(line: seq<Byte>, i: nat): Byte {
    if i < |line| then line[i] else 0
  }

  function ToStop(column: nat): (n: nat)
    ensures 1 <= n <= TAB_STOP
  {
    TAB_STOP - column % TAB_STOP
  }

  /** Whether a scalar ends before byte `i`. */
  predicate EndsAt(line: seq<Byte>, i: nat) {
    i == |line| || !IsContinuation(PeekAt(line, i))
  }

  function Least(a: nat, b: nat): nat {
    if a < b then a else b
  }

  // ---------- Advancing ----------

  /** One step of an advance of `count`: the cursor after it, and what it took of the count. */
  function Step(line: seq<Byte>, s: Cursor, count: nat, columns: bool): (r: (Cursor, nat))
    requires s.offset < |line| && count > 0
    ensures r.1 <= count && (r.1 == 0 ==> r.0.offset == s.offset + 1)
    ensures r.0.offset == s.offset || r.0.offset == s.offset + 1
    ensures r.0.offset == s.offset ==> r.1 == count
  {
    if line[s.offset] == TAB then
      var left := ToStop(s.column);
      if columns then
        var taken := Least(count, left);
        (Cursor(if left > count then s.offset else s.offset + 1, s.column + taken, left > count), taken)
      else (Cursor(s.offset + 1, s.column + left, false), 1)
    else
      var end := EndsAt(line, s.offset + 1);
      (Cursor(s.offset + 1, if end then s.column + 1 else s.column, false), if columns && !end then 0 else 1)
  }

  /** The cursor after an advance of `count` columns, or bytes. */
  function Advanced(line: seq<Byte>, s: Cursor, count: nat, columns: bool): Cursor
    decreases |line| - s.offset, count
  {
    if count == 0 || PeekAt(line, s.offset) == 0 then s
    else
      var (t, taken) := Step(line, s, count, columns);
      Advanced(line, t, count - taken, columns)
  }

  /** Where `n` bytes on from byte `i` is, short of the line's end and of a NUL. */
  ghost predicate IsBytesOn(line: seq<Byte>, i: nat, n: nat, end: nat)
  {
    && i <= end <= i + n
    && (forall k :: i <= k < end ==> PeekAt(line, k) != 0)
    && (end < i + n ==> PeekAt(line, end) == 0)
  }

  /** AN ADVANCE BY BYTES COUNTS BYTES, whatever scalars they are of, and leaves no tab taken in part. */
  lemma {:induction false} AdvanceBytes(line: seq<Byte>, s: Cursor, n: nat)
    ensures var t := Advanced(line, s, n, false);
            && IsBytesOn(line, s.offset, n, t.offset) && (if t.offset == s.offset then t == s else !t.partial)
    decreases n
  {
    hide Advanced;
    AdvancedIs(line, s, n, false);
    if n > 0 && PeekAt(line, s.offset) != 0 {
      AdvanceBytes(line, Step(line, s, n, false).0, n - 1);
    }
  }

  /** TWO ADVANCES ARE ONE of both counts, through tabs left within and scalars of many bytes. */
  lemma {:induction false} AdvancesAdd(line: seq<Byte>, s: Cursor, m: nat, n: nat, columns: bool)
    ensures Advanced(line, Advanced(line, s, m, columns), n, columns) == Advanced(line, s, m + n, columns)
    decreases |line| - s.offset, m
  {
    hide Step, Advanced;
    AdvancedIs(line, s, m, columns);
    AdvancedIs(line, s, m + n, columns);
    if m > 0 && PeekAt(line, s.offset) != 0 {
      var (t, taken) := Step(line, s, m, columns);
      if t.offset == s.offset {
        AdvancedIs(line, t, m - taken, columns);
        AdvancedIs(line, t, n, columns);
        if n > 0 {
          StepsJoin(line, s, m, n, columns);
        } else {
          AdvancedIs(line, t, 0, columns);
        }
      } else {
        StepsSame(line, s, m, n, columns);
        AdvancesAdd(line, t, m - taken, n, columns);
      }
    } else {
      AdvancedIs(line, s, n, columns);
    }
  }

  lemma AdvancedIs(line: seq<Byte>, s: Cursor, count: nat, columns: bool)
    ensures count == 0 || PeekAt(line, s.offset) == 0 ==> Advanced(line, s, count, columns) == s
    ensures count > 0 && PeekAt(line, s.offset) != 0 ==>
              var (t, taken) := Step(line, s, count, columns);
              Advanced(line, s, count, columns) == Advanced(line, t, count - taken, columns)
  {
  }

  /** A step that takes all of `m` within a tab, then one of `n`, are one of both. */
  lemma StepsJoin(line: seq<Byte>, s: Cursor, m: nat, n: nat, columns: bool)
    requires s.offset < |line| && m > 0 && n > 0 && Step(line, s, m, columns).0.offset == s.offset
    ensures var (t, taken) := Step(line, s, m, columns);
            var (u, rest) := Step(line, t, n, columns);
            taken == m && Step(line, s, m + n, columns) == (u, m + rest)
  {
    StopsWithin(s.column, m);
  }

  /** A step that leaves its byte does not ask for more than the count it takes. */
  lemma StepsSame(line: seq<Byte>, s: Cursor, m: nat, n: nat, columns: bool)
    requires s.offset < |line| && m > 0 && Step(line, s, m, columns).0.offset != s.offset
    ensures Step(line, s, m + n, columns) == Step(line, s, m, columns)
  {
  }

  /** Part of the way to a stop leaves the rest of it. */
  lemma StopsWithin(column: nat, m: nat)
    requires m < ToStop(column)
    ensures ToStop(column + m) == ToStop(column) - m
  {
  }

  // ---------- The line with its tabs expanded ----------

  /** Where the scalar of byte `i` ends. */
  function ScalarEnd(line: seq<Byte>, i: nat): (end: nat)
    requires i < |line|
    ensures i < end <= |line| && EndsAt(line, end)
    decreases |line| - i
  {
    if EndsAt(line, i + 1) then i + 1 else ScalarEnd(line, i + 1)
  }

  /** The cells from byte `offset` at `column` on, to the line's end or a NUL: each scalar is one, and a tab as many
      spaces as it is columns to its stop. */
  ghost function Cells(line: seq<Byte>, offset: nat, column: nat): (cells: seq<seq<Byte>>)
    decreases |line| - offset
  {
    if PeekAt(line, offset) == 0 then []
    else if line[offset] == TAB then Spaces(ToStop(column)) + Cells(line, offset + 1, column + ToStop(column))
    else [line[offset..ScalarEnd(line, offset)]] + Cells(line, ScalarEnd(line, offset), column + 1)
  }

  ghost function Spaces(n: nat): (s: seq<seq<Byte>>)
    ensures |s| == n
  {
    seq(n, i => [SPACE])
  }

  /** THE CURSOR GOES OVER THE EXPANDED LINE: an advance of `n` columns drops the first `n` of its cells. */
  lemma {:induction false} AdvanceDrops(line: seq<Byte>, s: Cursor, n: nat)
    ensures var t, cells := Advanced(line, s, n, true), Cells(line, s.offset, s.column);
            && Cells(line, t.offset, t.column) == cells[Least(n, |cells|)..]
            && t.column == s.column + Least(n, |cells|)
    decreases |line| - s.offset, n
  {
    hide Step, Advanced, Cells;
    AdvancedIs(line, s, n, true);
    if n > 0 && PeekAt(line, s.offset) != 0 {
      var (t, taken) := Step(line, s, n, true);
      if line[s.offset] == TAB {
        TabStep(line, s, n);
        TabDrops(line, s.offset, s.column, taken);
        AdvanceDrops(line, t, n - taken);
      } else {
        ScalarDrops(line, s, n);
      }
    } else {
      NoCells(line, s.offset, s.column);
    }
  }

  lemma NoCells(line: seq<Byte>, offset: nat, column: nat)
    ensures PeekAt(line, offset) == 0 ==> Cells(line, offset, column) == []
  {
  }

  lemma TabStep(line: seq<Byte>, s: Cursor, n: nat)
    requires s.offset < |line| && line[s.offset] == TAB && n > 0
    ensures var (t, taken) := Step(line, s, n, true);
            && taken == Least(n, ToStop(s.column)) && t.column == s.column + taken
            && t.offset == if ToStop(s.column) > n then s.offset else s.offset + 1
  {
  }

  lemma TabCells(line: seq<Byte>, offset: nat, column: nat)
    requires offset < |line| && line[offset] == TAB
    ensures Cells(line, offset, column) == Spaces(ToStop(column)) + Cells(line, offset + 1, column + ToStop(column))
  {
  }

  lemma TabDrops(line: seq<Byte>, offset: nat, column: nat, taken: nat)
    requires offset < |line| && line[offset] == TAB && taken <= ToStop(column)
    ensures var cells := Cells(line, offset, column);
            && taken <= |cells|
            && cells[taken..] == if taken < ToStop(column) then Cells(line, offset, column + taken)
                                 else Cells(line, offset + 1, column + taken)
  {
    hide Cells, ToStop;
    var left := ToStop(column);
    var rest := Cells(line, offset + 1, column + left);
    TabCells(line, offset, column);
    if taken < left {
      StopsWithin(column, taken);
      TabCells(line, offset, column + taken);
    }
    if taken < left {
      assert Spaces(left)[taken..] == Spaces(left - taken);
      assert (Spaces(left) + rest)[taken..] == Spaces(left)[taken..] + rest;
    } else {
      assert (Spaces(left) + rest)[left..] == rest;
    }
  }

  lemma ScalarCells(line: seq<Byte>, offset: nat, column: nat)
    requires offset < |line| && line[offset] != 0 && line[offset] != TAB
    ensures Cells(line, offset, column)
            == [line[offset..ScalarEnd(line, offset)]] + Cells(line, ScalarEnd(line, offset), column + 1)
  {
  }

  /** A scalar's bytes are one column, taken at its end. */
  lemma {:induction false} ScalarDrops(line: seq<Byte>, s: Cursor, n: nat)
    requires n > 0 && s.offset < |line| && line[s.offset] != 0 && line[s.offset] != TAB
    ensures var t, cells := Advanced(line, s, n, true), Cells(line, s.offset, s.column);
            && Cells(line, t.offset, t.column) == cells[Least(n, |cells|)..]
            && t.column == s.column + Least(n, |cells|)
    decreases |line| - s.offset, n, 0
  {
    hide Advanced, Cells, EndsAt;
    var end := ScalarEnd(line, s.offset);
    ScalarCells(line, s.offset, s.column);
    ScalarTaken(line, s, n);
    var t := Cursor(end, s.column + 1, false);
    AdvanceDrops(line, t, n - 1);
    var rest := Cells(line, end, s.column + 1);
    assert ([line[s.offset..end]] + rest)[Least(n, |rest| + 1)..] == rest[Least(n - 1, |rest|)..];
  }

  lemma {:induction false} ScalarTaken(line: seq<Byte>, s: Cursor, n: nat)
    requires n > 0 && s.offset < |line| && line[s.offset] != 0 && line[s.offset] != TAB
    ensures Advanced(line, s, n, true) == Advanced(line, Cursor(ScalarEnd(line, s.offset), s.column + 1, false), n - 1, true)
    decreases |line| - s.offset
  {
    hide Advanced;
    AdvancedIs(line, s, n, true);
    if !EndsAt(line, s.offset + 1) {
      ScalarTaken(line, Cursor(s.offset + 1, s.column, false), n);
    }
  }

  // ---------- The first byte that is no space ----------

  /** The column of byte `i`. */
  ghost function ColumnAt(line: seq<Byte>, i: nat): nat
    requires i <= |line|
  {
    if i == 0 then 0
    else if line[i - 1] == TAB then ColumnAt(line, i - 1) + ToStop(ColumnAt(line, i - 1))
    else ColumnAt(line, i - 1) + if EndsAt(line, i) then 1 else 0
  }

  /** A cursor at the column of its byte, or in the tab there. */
  ghost predicate Stands(line: seq<Byte>, s: Cursor)
  {
    && s.offset <= |line|
    && if s.partial then s.offset < |line| && line[s.offset] == TAB && ColumnAt(line, s.offset) < s.column < ColumnAt(line, s.offset + 1)
       else s.column == ColumnAt(line, s.offset)
  }

  lemma StepStands(line: seq<Byte>, s: Cursor, count: nat, columns: bool)
    requires Stands(line, s) && s.offset < |line| && count > 0
    ensures Stands(line, Step(line, s, count, columns).0)
  {
    if s.partial {
      StopsWithin(ColumnAt(line, s.offset), s.column - ColumnAt(line, s.offset));
    }
  }

  /** AN ADVANCE KEEPS THE COLUMN TRUE. */
  lemma {:induction false} AdvanceStands(line: seq<Byte>, s: Cursor, count: nat, columns: bool)
    requires Stands(line, s)
    ensures Stands(line, Advanced(line, s, count, columns)) && Advanced(line, s, count, columns).offset >= s.offset
    decreases |line| - s.offset, count
  {
    if count > 0 && PeekAt(line, s.offset) != 0 {
      StepStands(line, s, count, columns);
      var (t, taken) := Step(line, s, count, columns);
      AdvanceStands(line, t, count - taken, columns);
    }
  }

  /** The first byte from `i` on that is no space. */
  ghost function FirstNonspace(line: seq<Byte>, i: nat): (k: nat)
    ensures i <= k && (i <= |line| ==> k <= |line|) && !IsSpace(PeekAt(line, k))
    ensures forall j :: i <= j < k ==> IsSpace(PeekAt(line, j))
    decreases |line| - i
  {
    if IsSpace(PeekAt(line, i)) then FirstNonspace(line, i + 1) else i
  }

  lemma {:induction false} FirstStays(line: seq<Byte>, i: nat, j: nat)
    requires i <= j <= FirstNonspace(line, i)
    ensures FirstNonspace(line, j) == FirstNonspace(line, i)
    decreases j - i
  {
    if i < j {
      FirstStays(line, i + 1, j);
    }
  }

  /** A scan's column is true wherever it started, in a tab too. */
  lemma SpaceColumn(line: seq<Byte>, s: Cursor, i: nat, column: nat)
    requires Stands(line, s) && s.offset <= i < |line| && IsSpace(line[i]) && Proper(line)
    requires if i == s.offset then column == s.column else column == ColumnAt(line, i)
    requires s.partial ==> line[s.offset] == TAB
    ensures column + (if line[i] == TAB then ToStop(column) else 1) == ColumnAt(line, i + 1)
  {
    if i == s.offset && s.partial {
      StopsWithin(ColumnAt(line, i), column - ColumnAt(line, i));
    }
  }

  /** A line of well-formed text: no byte of one-byte scalars is followed by a byte that goes on with a scalar. */
  ghost predicate Proper(line: seq<Byte>)
  {
    forall i: nat :: i < |line| && line[i] < 0x80 ==> EndsAt(line, i + 1)
  }

  predicate IsLineEnd(b: Byte) {
    b == LF || b == CR
  }

  /** What is kept of the first byte that is no space, while the cursor is before it, is true. */
  ghost predicate Known(line: seq<Byte>, s: Cursor, first: nat, column: nat)
  {
    s.offset < first ==> first == FirstNonspace(line, s.offset) && first <= |line| && column == ColumnAt(line, first)
  }

  /** A line's cursor, and what is kept of the first byte from it on that is no space. */
  class LineCursor {
    const line: seq<Byte>
    var offset: nat
    var column: nat
    var partial: bool
    var firstNonspace: nat
    var firstNonspaceColumn: nat
    var indent: int
    var blank: bool

    ghost function Place(): Cursor
      reads this
    {
      Cursor(offset, column, partial)
    }

    ghost predicate Valid()
      reads this
    {
      Proper(line) && Stands(line, Place()) && Known(line, Place(), firstNonspace, firstNonspaceColumn)
    }

    constructor (line: seq<Byte>)
      requires Proper(line)
      ensures Valid() && this.line == line && Place() == Cursor(0, 0, false)
    {
      this.line := line;
      offset, column, partial, firstNonspace, firstNonspaceColumn, indent, blank := 0, 0, false, 0, 0, 0, false;
    }

    /** The cursor advanced by `count` columns, or bytes; what is kept of the first byte that is no space stays true. */
    method Advance(count: int, columns: bool)
      requires Valid()
      modifies this`offset, this`column, this`partial
      ensures Valid() && Place() == Advanced(line, old(Place()), if count > 0 then count else 0, columns)
      ensures !columns ==> IsBytesOn(line, old(offset), if count > 0 then count else 0, offset)
    {
      hide Stands, Known, Proper, EndsAt, ToStop, Advanced, IsBytesOn;
      ghost var from := Place();
      var left := count;
      var all: nat := if count > 0 then count else 0;
      while left > 0 && offset < |line| && line[offset] != 0
        invariant offset <= |line| || offset == from.offset
        invariant Advanced(line, Place(), if left > 0 then left else 0, columns) == Advanced(line, from, all, columns)
        decreases |line| - offset, left
      {
        ghost var s, had: nat := Place(), left;
        AdvancedIs(line, s, had, columns);
        var c := line[offset];
        if c == TAB {
          var toTab := ToStop(column);
          if columns {
            partial := toTab > left;
            var advance := if left < toTab then left else toTab;
            column := column + advance;
            offset := offset + if partial then 0 else 1;
            left := left - advance;
          } else {
            partial := false;
            column := column + toTab;
            offset := offset + 1;
            left := left - 1;
          }
        } else {
          partial := false;
          offset := offset + 1;
          var scalarEnd := offset == |line| || !IsContinuation(PeekAt(line, offset));
          EndsIs(line, offset);
          column := column + if scalarEnd then 1 else 0;
          left := left - if columns then (if scalarEnd then 1 else 0) else 1;
        }
        assert (Place(), had - left) == Step(line, s, had, columns);
      }
      AdvancedIs(line, Place(), if left > 0 then left else 0, columns);
      AdvanceStands(line, from, all, columns);
      AdvanceBytes(line, from, all);
      KnownStays(line, from, Place(), firstNonspace, firstNonspaceColumn);
    }

    /** THE FIRST BYTE FROM THE CURSOR ON THAT IS NO SPACE, its column and how far it is indented, and whether the line
        is blank from there: as a scan from the cursor finds them, whatever was kept. */
    method FindFirstNonspace()
      requires Valid()
      modifies this`firstNonspace, this`firstNonspaceColumn, this`indent, this`blank
      ensures Valid() && firstNonspace == FirstNonspace(line, offset) && firstNonspace <= |line|
      ensures firstNonspaceColumn == ColumnAt(line, firstNonspace) && indent == firstNonspaceColumn - column
      ensures blank <==> PeekAt(line, firstNonspace) == LF || PeekAt(line, firstNonspace) == CR
    {
      hide ColumnAt, ToStop, Stands, Known, Proper, FirstNonspace, IsSpace, EndsAt;
      StandsIn(line, Place());
      KnownIs(line, Place(), firstNonspace, firstNonspaceColumn);
      if firstNonspace <= offset {
        firstNonspace := offset;
        firstNonspaceColumn := column;
        while IsSpace(PeekAt(line, firstNonspace))
          invariant offset <= firstNonspace <= |line|
          invariant FirstNonspace(line, firstNonspace) == FirstNonspace(line, offset)
          invariant if firstNonspace == offset then firstNonspaceColumn == column
                    else firstNonspaceColumn == ColumnAt(line, firstNonspace)
          decreases |line| - firstNonspace
        {
          SpaceIs(line, firstNonspace);
          SpaceColumn(line, Place(), firstNonspace, firstNonspaceColumn);
          FirstOn(line, firstNonspace);
          if line[firstNonspace] == SPACE {
            firstNonspace := firstNonspace + 1;
            firstNonspaceColumn := firstNonspaceColumn + 1;
          } else {
            firstNonspace := firstNonspace + 1;
            firstNonspaceColumn := firstNonspaceColumn + ToStop(firstNonspaceColumn);
          }
        }
        if firstNonspace < |line| {
          SpaceTab();
        }
        FirstOn(line, firstNonspace);
        KnownFrom(line, Place(), firstNonspace, firstNonspaceColumn);
      }
      indent := firstNonspaceColumn - column;
      blank := IsLineEnd(PeekAt(line, firstNonspace));
    }
  }

  lemma SpaceIs(line: seq<Byte>, i: nat)
    requires IsSpace(PeekAt(line, i))
    ensures i < |line| && IsSpace(line[i]) && (line[i] == SPACE || line[i] == TAB)
  {
  }

  lemma SpaceTab()
    ensures IsSpace(TAB)
  {
  }

  lemma FirstOn(line: seq<Byte>, i: nat)
    ensures FirstNonspace(line, i) == if IsSpace(PeekAt(line, i)) then FirstNonspace(line, i + 1) else i
  {
  }

  lemma KnownIs(line: seq<Byte>, s: Cursor, first: nat, column: nat)
    requires Known(line, s, first, column)
    ensures s.offset < first ==> first == FirstNonspace(line, s.offset) && first <= |line| && column == ColumnAt(line, first)
  {
  }

  lemma KnownFrom(line: seq<Byte>, s: Cursor, first: nat, column: nat)
    requires s.offset < first ==> first == FirstNonspace(line, s.offset) && first <= |line| && column == ColumnAt(line, first)
    ensures Known(line, s, first, column)
  {
  }

  lemma EndsIs(line: seq<Byte>, i: nat)
    ensures EndsAt(line, i) <==> i == |line| || !IsContinuation(PeekAt(line, i))
  {
  }

  lemma StandsIn(line: seq<Byte>, s: Cursor)
    requires Stands(line, s)
    ensures s.offset <= |line| && (s.partial ==> s.offset < |line| && line[s.offset] == TAB)
    ensures !s.partial ==> s.column == ColumnAt(line, s.offset)
  {
  }

  /** What is kept stays true of a cursor that moves on. */
  lemma KnownStays(line: seq<Byte>, s: Cursor, t: Cursor, first: nat, column: nat)
    requires Known(line, s, first, column) && s.offset <= t.offset
    ensures Known(line, t, first, column)
  {
    if t.offset < first {
      FirstStays(line, s.offset, t.offset);
    }
  }
}
