/** The places of a content are the fewest there can be: what joins and what does not, when the map goes forward. */
module ContentParts {
  import opened ContentMaps
  import opened ContentPlaces
  import opened Basics

  /** Two places that would be one if they touched: both copied, or both of no content. */
  predicate Alike(a: Piece, b: Piece)
  {
    (IsCopied(a) && IsCopied(b)) || (a.length == 0 && b.length == 0)
  }

  /** No two neighbours that are alike touch. */
  ghost predicate Parted(places: seq<Piece>)
  {
    forall p :: 0 <= p && p + 1 < |places| && Alike(places[p], places[p + 1]) ==> places[p].end < places[p + 1].start
  }

  /** Each of `length` content bytes is read from just `start` to `stop`. */
  ghost predicate ReadWhole(marks: seq<Mark>, m: Map, from: int, length: int, start: int, stop: int)
    requires In(marks, m) && m.count > 0
  {
    forall x :: from <= x < from + length ==> At(marks, m, x).start == start && At(marks, m, x).end == stop
  }

  /** Each byte of a place that is not copied is read from all of the place: so it is of one run. */
  ghost predicate Wholes(marks: seq<Mark>, m: Map, places: seq<Piece>)
    requires In(marks, m) && m.count > 0
  {
    forall p :: 0 <= p < |places| && places[p].length > 0 && !IsCopied(places[p]) ==>
      ReadWhole(marks, m, Before(places, p), places[p].length, places[p].start, places[p].end)
  }

  ghost predicate OfLine(lines: seq<Piece>, start: int, end: int)
  {
    exists l :: 0 <= l < |lines| && lines[l].start <= start && end <= lines[l].end
  }

  /** A source byte of an own line. */
  ghost predicate InLine(lines: seq<Piece>, b: int)
  {
    OfLine(lines, b, b + 1)
  }

  ghost predicate OwnAt(piece: Piece, lines: seq<Piece>)
  {
    piece.length == 0 ==> forall b :: piece.start <= b < piece.end ==> InLine(lines, b)
  }

  /** What gives no content is of the own lines, when there are some, and else does not come first. */
  ghost predicate Owned(places: seq<Piece>, lines: Option<seq<Piece>>)
  {
    && (lines.Some? ==> forall p :: 0 <= p < |places| ==> OwnAt(places[p], lines.value))
    && (lines.None? && places != [] ==> places[0].length > 0)
  }

  ghost predicate Fine(marks: seq<Mark>, m: Map, places: seq<Piece>, lines: Option<seq<Piece>>)
    requires In(marks, m) && m.count > 0
  {
    Parted(places) && Wholes(marks, m, places) && Owned(places, lines)
  }

  // ---------- Own source ----------

  lemma OwnParted(places: seq<Piece>, start: int, end: int)
    requires Parted(places) && (places != [] ==> LastEnd(places) <= start)
    ensures Parted(AddOwn(places, start, end))
  {
  }

  lemma OwnWholes(marks: seq<Mark>, m: Map, places: seq<Piece>, start: int, end: int)
    requires In(marks, m) && m.count > 0 && Wholes(marks, m, places)
    ensures Wholes(marks, m, AddOwn(places, start, end))
  {
    hide ReadWhole, Sum, Before;
    if start < end {
      if places != [] && places[|places| - 1].length == 0 && places[|places| - 1].end == start {
        SumLast(places, places[|places| - 1].(end := end));
      } else {
        SumOn(places, Piece(start, end, 0));
      }
    }
  }

  lemma OwnOwned(places: seq<Piece>, start: int, end: int, lines: Option<seq<Piece>>)
    requires Owned(places, lines) && (if lines.Some? then OfLine(lines.value, start, end) else places != [])
    ensures Owned(AddOwn(places, start, end), lines)
  {
    if lines.Some? && start < end {
      hide OfLine;
      forall b | start <= b < end
        ensures InLine(lines.value, b)
      {
        LineHolds(lines.value, start, end, b);
      }
      var more := AddOwn(places, start, end);
      var last := more[|more| - 1];
      forall p | 0 <= p < |more|
        ensures OwnAt(more[p], lines.value)
      {
        if p < |more| - 1 {
          assert OwnAt(places[p], lines.value);
        } else if |more| == |places| {
          assert OwnAt(places[p], lines.value);
        }
      }
    }
  }

  lemma LineHolds(lines: seq<Piece>, start: int, end: int, b: int)
    requires OfLine(lines, start, end) && start <= b < end
    ensures InLine(lines, b)
  {
    var l :| 0 <= l < |lines| && lines[l].start <= start && end <= lines[l].end;
    assert lines[l].start <= b && b + 1 <= lines[l].end;
  }

  lemma OwnFine(marks: seq<Mark>, m: Map, places: seq<Piece>, start: int, end: int, lines: Option<seq<Piece>>)
    requires In(marks, m) && m.count > 0 && Fine(marks, m, places, lines) && (places != [] ==> LastEnd(places) <= start)
    requires if lines.Some? then OfLine(lines.value, start, end) else places != []
    ensures Fine(marks, m, AddOwn(places, start, end), lines)
  {
    hide Parted, Wholes, Owned, AddOwn;
    OwnParted(places, start, end);
    OwnWholes(marks, m, places, start, end);
    OwnOwned(places, start, end, lines);
  }

  lemma LineOf(lines: seq<Piece>, l: nat, start: int, end: int)
    requires l < |lines| && lines[l].start <= start && end <= lines[l].end
    ensures OfLine(lines, start, end)
  {
  }

  /** Own source comes last in what it is put after, or is none. */
  ghost predicate OwnLast(was: seq<Piece>, places: seq<Piece>)
  {
    places == was || (places != [] && places[|places| - 1].length == 0)
  }

  lemma {:induction false} PassFine(marks: seq<Mark>, m: Map, places: seq<Piece>, n: int, line: nat, at: int, start: int, lines: seq<Piece>)
    requires In(marks, m) && m.count > 0 && Placed(marks, m, places, n) && Lined(lines) && line <= |lines|
    requires Clear(places, line, at, lines) && at <= start && (places != [] ==> LastEnd(places) <= start)
    requires Fine(marks, m, places, Some(lines))
    ensures var r := PassLines(places, line, at, start, lines);
            r.1 <= |lines| && Fine(marks, m, r.0, Some(lines)) && OwnLast(places, r.0)
    decreases |lines| - line
  {
    hide Placed, Fine, AddOwn;
    if line < |lines| && lines[line].end <= start {
      var from := Max(at, lines[line].start);
      var more := AddOwn(places, from, lines[line].end);
      OwnPlaced(marks, m, places, n, from, lines[line].end);
      LineOf(lines, line, from, lines[line].end);
      AddLast(places, from, lines[line].end);
      OwnFine(marks, m, places, from, lines[line].end, Some(lines));
      PassFine(marks, m, more, n, line + 1, at, start, lines);
    }
  }

  lemma AddLast(places: seq<Piece>, start: int, end: int)
    ensures OwnLast(places, AddOwn(places, start, end))
  {
  }

  lemma OwnBeforeFine(marks: seq<Mark>, m: Map, s: State, n: int, start: int, lines: Option<seq<Piece>>)
    requires In(marks, m) && m.count > 0 && Reading(marks, m, s, n, lines) && s.at <= start && Fine(marks, m, s.places, lines)
    ensures Fine(marks, m, OwnBefore(s, start, lines).places, lines) && OwnLast(s.places, OwnBefore(s, start, lines).places)
  {
    hide Placed, Lined, Fine, AddOwn, PassLines;
    match lines
    case None =>
      if s.places != [] {
        OwnFine(marks, m, s.places, s.at, start, lines);
        AddLast(s.places, s.at, start);
      }
    case Some(ls) =>
      PassFine(marks, m, s.places, n, s.line, s.at, start, ls);
      PassPlaced(marks, m, s.places, n, s.line, s.at, start, ls);
      var (places, line) := PassLines(s.places, s.line, s.at, start, ls);
      if line < |ls| && ls[line].start <= start {
        var from := Max(s.at, ls[line].start);
        LineOf(ls, line, from, start);
        AddLast(places, from, start);
        OwnFine(marks, m, places, from, start, lines);
      }
  }

  lemma {:induction false} CloseFine(marks: seq<Mark>, m: Map, s: State, n: int, lines: Option<seq<Piece>>)
    requires In(marks, m) && m.count > 0 && Placed(marks, m, s.places, n) && LinedUp(lines, s.line)
    requires lines.Some? ==> Clear(s.places, s.line, s.at, lines.value)
    requires Fine(marks, m, s.places, lines)
    ensures Fine(marks, m, Close(s, lines), lines)
    decreases if lines.Some? then |lines.value| - s.line else 0
  {
    hide Placed, Fine, AddOwn;
    if lines.Some? && s.line < |lines.value| {
      var own := lines.value[s.line];
      var from := Max(s.at, own.start);
      OwnPlaced(marks, m, s.places, n, from, own.end);
      LineOf(lines.value, s.line, from, own.end);
      OwnFine(marks, m, s.places, from, own.end, lines);
      CloseFine(marks, m, State(AddOwn(s.places, from, own.end), s.line + 1, s.at), n, lines);
    }
  }

  // ---------- A slice ----------

  /** A slice of copied bytes, or one each of whose bytes is read from all of its source. */
  ghost predicate OneKind(marks: seq<Mark>, m: Map, n: int, start: int, stop: int, size: int)
    requires In(marks, m) && m.count > 0
  {
    stop - start == size || ReadWhole(marks, m, n, size, start, stop)
  }

  lemma TakeFine(marks: seq<Mark>, m: Map, s: State, n: int, start: int, stop: int, size: int, lines: Option<seq<Piece>>)
    requires In(marks, m) && m.count > 0 && Reading(marks, m, s, n, lines) && Fine(marks, m, s.places, lines)
    requires 0 < size && start < stop && s.at <= start && OneKind(marks, m, n, start, stop, size)
    ensures Fine(marks, m, Take(s, start, stop, size, lines).places, lines)
    ensures Take(s, start, stop, size, lines).at == stop
  {
    hide *;
    ReadingParts(marks, m, s, n, lines);
    TakeIs(s, start, stop, size, lines);
    if Joins(s.places, start, stop, size) {
      JoinFine(marks, m, s.places, start, stop, size, lines);
    } else {
      OwnBeforePlaced(marks, m, s, n, start, lines);
      OwnBeforeFine(marks, m, s, n, start, lines);
      PlacedSum(marks, m, OwnBefore(s, start, lines).places, n);
      NotTouching(s.places, OwnBefore(s, start, lines).places, start, stop, size);
      AppendFine(marks, m, OwnBefore(s, start, lines).places, n, start, stop, size, lines);
    }
  }

  /** A place gone on with is copied, as the slice that goes on is. */
  lemma JoinFine(marks: seq<Mark>, m: Map, places: seq<Piece>, start: int, stop: int, size: int, lines: Option<seq<Piece>>)
    requires In(marks, m) && m.count > 0 && Fine(marks, m, places, lines) && Joins(places, start, stop, size)
    requires 0 < size && start < stop && LastEnd(places) <= start && places[|places| - 1].length > 0
    ensures var last := places[|places| - 1];
            var piece := Piece(last.start, Max(stop, last.end), last.length + size);
            Fine(marks, m, places[|places| - 1 := piece], lines) && piece.end == stop
  {
    hide ReadWhole, Sum, Before, InLine;
    var last := places[|places| - 1];
    var piece := Piece(last.start, Max(stop, last.end), last.length + size);
    assert IsCopied(last) && IsCopied(piece);
    SumLast(places, piece);
    if lines.Some? {
      var more := places[|places| - 1 := piece];
      forall p | 0 <= p < |more|
        ensures OwnAt(more[p], lines.value)
      {
        assert OwnAt(places[p], lines.value);
      }
    }
  }

  lemma NotTouching(was: seq<Piece>, places: seq<Piece>, start: int, stop: int, size: int)
    requires !Joins(was, start, stop, size) && OwnLast(was, places) && 0 < size && (places != [] ==> LastEnd(places) <= start)
    ensures places != [] && Alike(places[|places| - 1], Piece(start, stop, size)) ==> LastEnd(places) < start
  {
  }

  lemma AppendFine(marks: seq<Mark>, m: Map, places: seq<Piece>, n: int, start: int, stop: int, size: int, lines: Option<seq<Piece>>)
    requires In(marks, m) && m.count > 0 && Fine(marks, m, places, lines) && Sum(places) == n && 0 < size
    requires OneKind(marks, m, n, start, stop, size)
    requires places != [] && Alike(places[|places| - 1], Piece(start, stop, size)) ==> LastEnd(places) < start
    ensures Fine(marks, m, places + [Piece(start, stop, size)], lines)
  {
    hide ReadWhole, Sum, Before, InLine;
    var piece := Piece(start, stop, size);
    var more := places + [piece];
    SumOn(places, piece);
    BeforeAll(places);
    if lines.Some? {
      forall p | 0 <= p < |more|
        ensures OwnAt(more[p], lines.value)
      {
        if p < |places| {
          assert OwnAt(places[p], lines.value);
        }
      }
    }
  }

  // ---------- The read ----------

  /** The slice of a run of a map that goes forward is of one kind. */
  lemma SliceKind(marks: seq<Mark>, m: Map, n: int, i: nat, from: int, to: int)
    requires Sourced(marks, m, n) && m.first <= i < m.first + m.count
    requires marks[i].at <= from < to <= RunEnd(marks, m, n, i)
    ensures OneKind(marks, m, from - m.offset, SliceStart(marks[i], from), SliceStop(marks[i], from, to), to - from)
  {
    hide At, RunAt, Sourced, RunEnd;
    RunOfSourced(marks, m, n, i);
    SourcedParts(marks, m, n);
    StopSame(marks[i], from, to);
    if marks[i].step == 1 && marks[i].width == 1 {
    } else {
      forall x | from - m.offset <= x < to - m.offset
        ensures At(marks, m, x).start == SliceStart(marks[i], from) && At(marks, m, x).end == SliceStop(marks[i], from, to)
      {
        RunEndIs(marks, m, n, i);
        RunIs(marks, m.first, m.count, x + m.offset, i);
        AtRun(marks, m, x, i);
      }
    }
  }

  lemma RunEndIs(marks: seq<Mark>, m: Map, n: int, i: nat)
    requires Runs(marks, m) && m.first <= i < m.first + m.count
    ensures forall k :: i < k < m.first + m.count ==> marks[k].at >= RunEnd(marks, m, n, i)
  {
  }

  /** A read of a map that goes forward up to a run is fine, and that run begins at or past where it ends. */
  lemma {:induction false} FineSteps(marks: seq<Mark>, m: Map, n: int, i: nat, lines: Option<seq<Piece>>)
    requires Sourced(marks, m, n) && m.count > 0 && Readable(marks, m) && LinedUp(lines, 0)
    requires FirstRun(marks, m) <= i < m.first + m.count
    ensures var s := ReadTo(marks, m, FirstRun(marks, m), i, lines);
            && Fine(marks, m, s.places, lines) && s.at <= SliceStart(marks[i], From(marks, m, FirstRun(marks, m), i))
    decreases i
  {
    hide *;
    ReadableParts(marks, m);
    ContentPlaces.FirstFits(marks, m);
    var first := FirstRun(marks, m);
    ReadSteps(marks, m, i, lines);
    if i == first {
      ReadStarts(marks, m, lines);
      ReadingParts(marks, m, ReadTo(marks, m, first, i, lines), 0, lines);
      NoneFine(marks, m, lines);
    } else {
      FineSteps(marks, m, n, i - 1, lines);
      ReadSteps(marks, m, i - 1, lines);
      FromIs(marks, m, first, i - 1);
      FromIs(marks, m, first, i);
      ReadToOn(marks, m, first, i, lines);
      RunsGrow(marks, m, i - 1);
      var from, to := From(marks, m, first, i - 1), marks[i].at;
      EndsNext(marks, m, n, i - 1);
      RunOfSourced(marks, m, n, i - 1);
      SliceKind(marks, m, n, i - 1, from, to);
      StepOf(marks, m, i - 1);
      SliceGrows(marks[i - 1], from, from, to);
      StopSame(marks[i - 1], from, to);
      StopSame(marks[i], to, to + 1);
      TakeFine(marks, m, ReadTo(marks, m, first, i - 1, lines), from - m.offset, SliceStart(marks[i - 1], from),
               SliceStop(marks[i - 1], from, to), to - from, lines);
    }
  }

  lemma EndsNext(marks: seq<Mark>, m: Map, n: int, i: nat)
    requires In(marks, m) && i + 1 < m.first + m.count
    ensures RunEnd(marks, m, n, i) == marks[i + 1].at
  {
  }

  lemma NoneFine(marks: seq<Mark>, m: Map, lines: Option<seq<Piece>>)
    requires In(marks, m) && m.count > 0
    ensures Fine(marks, m, [], lines)
  {
  }

  /** THE PLACES ARE THE FEWEST: of a map that goes forward, no two copied places touch, nor two of no content; a place
      that is not copied is of one run, each of its bytes read from all of it; and what gives no content is of the own
      lines. */
  lemma ReadParts(marks: seq<Mark>, m: Map, n: int, length: int, lines: Option<seq<Piece>>)
    requires Sourced(marks, m, n) && m.count > 0 && 0 < length <= n && LinedUp(lines, 0)
    requires Runs(marks, m) && marks[m.first].at <= m.offset
    ensures var places := ReadAll(marks, m, length, lines);
            Parted(places) && Wholes(marks, m, places) && Owned(places, lines)
  {
    hide *;
    SourcedReadable(marks, m, n);
    ReadableParts(marks, m);
    LastFits(marks, m, length);
    var first, last, to := FirstRun(marks, m), LastRun(marks, m, length), m.offset + length;
    FineSteps(marks, m, n, last, lines);
    ReadSteps(marks, m, last, lines);
    var s, from := ReadTo(marks, m, first, last, lines), From(marks, m, first, last);
    ReadLastIs(marks, m, length, lines);
    LastEnds(marks, m, n, length, last);
    SliceKind(marks, m, n, last, from, to);
    StepOf(marks, m, last);
    SliceGrows(marks[last], from, from, to);
    TakeFine(marks, m, s, from - m.offset, SliceStart(marks[last], from), SliceStop(marks[last], from, to), to - from, lines);
    ReadLastReads(marks, m, length, lines);
    var t := ReadLast(marks, m, length, lines);
    ClearAfter(marks, m, t, length, lines);
    CloseFine(marks, m, t, length, lines);
    ReadAllIs(marks, m, length, lines);
    FineParts(marks, m, ReadAll(marks, m, length, lines), lines);
  }

  lemma LastEnds(marks: seq<Mark>, m: Map, n: int, length: int, last: nat)
    requires In(marks, m) && m.first <= last < m.first + m.count && length <= n
    requires forall i :: last < i < m.first + m.count ==> marks[i].at >= m.offset + length
    ensures m.offset + length <= RunEnd(marks, m, n, last)
  {
  }

  lemma ClearAfter(marks: seq<Mark>, m: Map, s: State, n: int, lines: Option<seq<Piece>>)
    requires In(marks, m) && m.count > 0 && Reading(marks, m, s, n, lines)
    ensures Placed(marks, m, s.places, n) && LinedUp(lines, s.line)
    ensures lines.Some? ==> Clear(s.places, s.line, s.at, lines.value)
  {
    hide Placed;
  }

  lemma FineParts(marks: seq<Mark>, m: Map, places: seq<Piece>, lines: Option<seq<Piece>>)
    requires In(marks, m) && m.count > 0 && Fine(marks, m, places, lines)
    ensures Parted(places) && Wholes(marks, m, places) && Owned(places, lines)
  {
  }
}
