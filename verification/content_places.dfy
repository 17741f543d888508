/** A content's map read into places: stretches of source in order, with the content bytes each gives. */
module ContentPlaces {
  import opened ContentMaps
  import opened Basics

  /** Source `start` to `end`, and the content bytes read from it; none when it gives no content. */
  datatype Piece = Piece(start: int, end: int, length: int)

  /** Where a read stands: its places, the own line it is at, and the end of its last content place. */
  datatype State = State(places: seq<Piece>, line: nat, at: int)

  // ---------- A step of the read ----------

  function Max(a: int, b: int): int {
    if a > b then a else b
  }

  /** Own source put after the places, joined to own source it touches. */
  function AddOwn(places: seq<Piece>, start: int, end: int): seq<Piece>
  {
    if start >= end then places
    else if places != [] && places[|places| - 1].length == 0 && places[|places| - 1].end == start
    then places[|places| - 1 := places[|places| - 1].(end := end)]
    else places + [Piece(start, end, 0)]
  }

  /** The own lines that end at or before `start`, put after the places. */
  function PassLines(places: seq<Piece>, line: nat, at: int, start: int, lines: seq<Piece>): (seq<Piece>, nat)
    requires line <= |lines|
    decreases |lines| - line
  {
    if line < |lines| && lines[line].end <= start
    then PassLines(AddOwn(places, Max(at, lines[line].start), lines[line].end), line + 1, at, start, lines)
    else (places, line)
  }

  /** The own source between the last content place and `start`. */
  function OwnBefore(s: State, start: int, lines: Option<seq<Piece>>): (t: State)
    requires lines.Some? ==> s.line <= |lines.value|
  {
    match lines
    case None => if s.places == [] then s else s.(places := AddOwn(s.places, s.at, start))
    case Some(ls) =>
      var (places, line) := PassLines(s.places, s.line, s.at, start, ls);
      State(if line < |ls| && ls[line].start <= start then AddOwn(places, Max(s.at, ls[line].start), start) else places, line, s.at)
  }

  /** Whether a slice goes on a copied place, or reads source the last place read. */
  predicate Joins(places: seq<Piece>, start: int, stop: int, size: int)
  {
    places != [] && places[|places| - 1].length != 0 &&
      var last := places[|places| - 1];
      (last.end == start && stop - start == size && last.end - last.start == last.length) || start < last.end
  }

  /** A slice of `size` content bytes read from source `start` to `stop`. */
  function Take(s: State, start: int, stop: int, size: int, lines: Option<seq<Piece>>): (t: State)
    requires lines.Some? ==> s.line <= |lines.value|
  {
    if Joins(s.places, start, stop, size) then
      var last := s.places[|s.places| - 1];
      var end := Max(stop, last.end);
      State(s.places[|s.places| - 1 := Piece(last.start, end, last.length + size)], s.line, end)
    else
      var t := OwnBefore(s, start, lines);
      State(t.places + [Piece(start, stop, size)], t.line, stop)
  }

  /** The lines left, put after the places. */
  function Close(s: State, lines: Option<seq<Piece>>): seq<Piece>
    requires lines.Some? ==> s.line <= |lines.value|
    decreases if lines.Some? then |lines.value| - s.line else 0
  {
    if lines.Some? && s.line < |lines.value|
    then Close(State(AddOwn(s.places, Max(s.at, lines.value[s.line].start), lines.value[s.line].end), s.line + 1, s.at), lines)
    else s.places
  }

  // ---------- What places hold ----------

  ghost function Sum(places: seq<Piece>): int
  {
    if places == [] then 0 else Sum(places[..|places| - 1]) + places[|places| - 1].length
  }

  /** The content bytes before place `p`. */
  ghost function Before(places: seq<Piece>, p: nat): int
    requires p <= |places|
  {
    Sum(places[..p])
  }

  /** Places in order, apart or touching, none empty. */
  ghost predicate Ordered(places: seq<Piece>)
  {
    && (forall p :: 0 <= p < |places| ==> places[p].start < places[p].end && places[p].length >= 0)
    && (forall p, q :: 0 <= p < q < |places| ==> places[p].end <= places[q].start)
  }

  /** The source of content byte `x` lies in place `piece`. */
  ghost predicate Within(marks: seq<Mark>, m: Map, piece: Piece, x: int)
    requires In(marks, m) && m.count > 0
  {
    piece.start <= At(marks, m, x).start && At(marks, m, x).end <= piece.end
  }

  ghost predicate Holds(marks: seq<Mark>, m: Map, piece: Piece, from: int)
    requires In(marks, m) && m.count > 0
  {
    forall x :: from <= x < from + piece.length ==> Within(marks, m, piece, x)
  }

  /** The places of the first `n` content bytes, in order, each byte's source in the place it is read from. */
  ghost predicate Placed(marks: seq<Mark>, m: Map, places: seq<Piece>, n: int)
    requires In(marks, m) && m.count > 0
  {
    && Ordered(places) && Sum(places) == n
    && forall p :: 0 <= p < |places| ==> Holds(marks, m, places[p], Before(places, p))
  }

  ghost function LastEnd(places: seq<Piece>): int
    requires places != []
  {
    places[|places| - 1].end
  }

  lemma SumOn(places: seq<Piece>, piece: Piece)
    ensures Sum(places + [piece]) == Sum(places) + piece.length
    ensures forall p :: 0 <= p <= |places| ==> Before(places + [piece], p) == Before(places, p)
  {
    var more := places + [piece];
    assert more[..|places|] == places;
    forall p | 0 <= p <= |places|
      ensures Before(more, p) == Before(places, p)
    {
      assert more[..p] == places[..p];
    }
  }

  lemma SumLast(places: seq<Piece>, piece: Piece)
    requires places != []
    ensures Sum(places[|places| - 1 := piece]) == Sum(places) - places[|places| - 1].length + piece.length
    ensures forall p :: 0 <= p < |places| ==> Before(places[|places| - 1 := piece], p) == Before(places, p)
    ensures Before(places, |places| - 1) + places[|places| - 1].length == Sum(places)
  {
    var other := places[|places| - 1 := piece];
    assert other[..|places| - 1] == places[..|places| - 1];
    forall p | 0 <= p < |places|
      ensures Before(other, p) == Before(places, p)
    {
      assert other[..p] == places[..p];
    }
  }

  // ---------- Own source put between ----------

  /** Own source put past the last place changes nothing the places hold. */
  lemma OwnPlaced(marks: seq<Mark>, m: Map, places: seq<Piece>, n: int, start: int, end: int)
    requires In(marks, m) && m.count > 0 && Placed(marks, m, places, n) && (places != [] ==> LastEnd(places) <= start)
    ensures Placed(marks, m, AddOwn(places, start, end), n)
    ensures AddOwn(places, start, end) != [] ==>
              LastEnd(AddOwn(places, start, end)) == if start < end then end else LastEnd(places)
    ensures start < end ==> AddOwn(places, start, end) != []
    ensures start >= end ==> AddOwn(places, start, end) == places
  {
    hide Within, Sum, Before;
    if start < end {
      if places != [] && places[|places| - 1].length == 0 && places[|places| - 1].end == start {
        var piece := places[|places| - 1].(end := end);
        var more := places[|places| - 1 := piece];
        SumLast(places, piece);
        forall p | 0 <= p < |more|
          ensures Holds(marks, m, more[p], Before(more, p))
        {
          assert Holds(marks, m, places[p], Before(places, p));
        }
      } else {
        var piece := Piece(start, end, 0);
        SumOn(places, piece);
        forall p | 0 <= p < |places + [piece]|
          ensures Holds(marks, m, (places + [piece])[p], Before(places + [piece], p))
        {
          if p < |places| {
            assert Holds(marks, m, places[p], Before(places, p));
          }
        }
      }
    }
  }

  /** Own lines, in order, none before the source's start. */
  ghost predicate Lined(lines: seq<Piece>)
  {
    && (forall i :: 0 <= i < |lines| ==> 0 <= lines[i].start <= lines[i].end)
    && (forall i, j :: 0 <= i < j < |lines| ==> lines[i].end <= lines[j].start)
  }

  ghost predicate LinedUp(lines: Option<seq<Piece>>, line: nat)
  {
    lines.Some? ==> Lined(lines.value) && line <= |lines.value|
  }

  /** The places end before what own line `line` is still to give. */
  ghost predicate Clear(places: seq<Piece>, line: nat, at: int, lines: seq<Piece>)
  {
    places != [] ==> LastEnd(places) <= at || (line < |lines| && LastEnd(places) <= lines[line].start) || (line == |lines| && |lines| > 0 && LastEnd(places) <= lines[line - 1].end)
  }

  lemma {:induction false} PassPlaced(marks: seq<Mark>, m: Map, places: seq<Piece>, n: int, line: nat, at: int, start: int, lines: seq<Piece>)
    requires In(marks, m) && m.count > 0 && Placed(marks, m, places, n) && Lined(lines) && line <= |lines|
    requires Clear(places, line, at, lines) && at <= start && (places != [] ==> LastEnd(places) <= start)
    ensures var r := PassLines(places, line, at, start, lines);
            && line <= r.1 <= |lines| && Placed(marks, m, r.0, n) && Clear(r.0, r.1, at, lines)
            && (r.0 != [] ==> LastEnd(r.0) <= start) && (r.1 < |lines| ==> lines[r.1].end > start)
    decreases |lines| - line
  {
    hide Placed;
    if line < |lines| && lines[line].end <= start {
      var more := AddOwn(places, Max(at, lines[line].start), lines[line].end);
      OwnPlaced(marks, m, places, n, Max(at, lines[line].start), lines[line].end);
      PassPlaced(marks, m, more, n, line + 1, at, start, lines);
    }
  }

  // ---------- The read, slice by slice ----------

  /** Where a read of the first `n` content bytes stands before the next slice. */
  ghost predicate Reading(marks: seq<Mark>, m: Map, s: State, n: int, lines: Option<seq<Piece>>)
    requires In(marks, m) && m.count > 0
  {
    && Placed(marks, m, s.places, n) && LinedUp(lines, s.line) && 0 <= s.at
    && (if s.places == [] then s.at == 0 == n
        else s.places[|s.places| - 1].length > 0 && LastEnd(s.places) == s.at)
  }

  ghost predicate Gives(marks: seq<Mark>, m: Map, n: int, start: int, stop: int, size: int)
    requires In(marks, m) && m.count > 0
  {
    && 0 <= start < stop && 0 < size
    && forall x :: n <= x < n + size ==> start <= At(marks, m, x).start && At(marks, m, x).end <= stop
  }

  lemma OwnBeforePlaced(marks: seq<Mark>, m: Map, s: State, n: int, start: int, lines: Option<seq<Piece>>)
    requires In(marks, m) && m.count > 0 && Reading(marks, m, s, n, lines) && s.at <= start
    ensures var t := OwnBefore(s, start, lines);
            && Placed(marks, m, t.places, n) && LinedUp(lines, t.line) && t.at == s.at
            && (t.places != [] ==> LastEnd(t.places) <= start)
  {
    hide Placed, Lined;
    match lines
    case None =>
      if s.places != [] {
        OwnPlaced(marks, m, s.places, n, s.at, start);
      }
    case Some(ls) =>
      PassPlaced(marks, m, s.places, n, s.line, s.at, start, ls);
      var (places, line) := PassLines(s.places, s.line, s.at, start, ls);
      if line < |ls| && ls[line].start <= start {
        OwnPlaced(marks, m, places, n, Max(s.at, ls[line].start), start);
      }
  }

  /** A slice joined to the last place, or placed after it, keeps the places in order and every byte in its own. */
  lemma TakeReads(marks: seq<Mark>, m: Map, s: State, n: int, start: int, stop: int, size: int, lines: Option<seq<Piece>>)
    requires In(marks, m) && m.count > 0 && Reading(marks, m, s, n, lines) && Gives(marks, m, n, start, stop, size)
    requires s.places != [] ==> s.places[|s.places| - 1].start <= start
    ensures Reading(marks, m, Take(s, start, stop, size, lines), n + size, lines)
    ensures var t := Take(s, start, stop, size, lines);
            t.places != [] && t.places[|t.places| - 1].start <= start
  {
    hide *;
    GivesAt(marks, m, n, start, stop, size);
    ReadingParts(marks, m, s, n, lines);
    TakeIs(s, start, stop, size, lines);
    if Joins(s.places, start, stop, size) {
      JoinIs(s.places, start, stop, size);
      JoinReads(marks, m, s.places, n, start, stop, size);
      MaxIs(stop, LastEnd(s.places));
    } else {
      if s.places != [] {
        NotJoined(s.places, start, stop, size);
      }
      OwnBeforePlaced(marks, m, s, n, start, lines);
      AppendReads(marks, m, OwnBefore(s, start, lines).places, n, start, stop, size);
    }
    var t := Take(s, start, stop, size, lines);
    ReadingFrom(marks, m, t, n + size, lines);
  }

  lemma ReadingParts(marks: seq<Mark>, m: Map, s: State, n: int, lines: Option<seq<Piece>>)
    requires In(marks, m) && m.count > 0 && Reading(marks, m, s, n, lines)
    ensures Placed(marks, m, s.places, n) && LinedUp(lines, s.line) && 0 <= s.at
    ensures lines.Some? ==> s.line <= |lines.value|
    ensures if s.places == [] then s.at == 0 == n
            else s.places[|s.places| - 1].length > 0 && LastEnd(s.places) == s.at && s.places[|s.places| - 1].start < s.at
  {
  }

  lemma ReadingFrom(marks: seq<Mark>, m: Map, s: State, n: int, lines: Option<seq<Piece>>)
    requires In(marks, m) && m.count > 0
    requires Placed(marks, m, s.places, n) && LinedUp(lines, s.line) && 0 <= s.at
    requires s.places != [] && s.places[|s.places| - 1].length > 0 && s.places[|s.places| - 1].end == s.at
    ensures Reading(marks, m, s, n, lines)
  {
  }

  lemma TakeIs(s: State, start: int, stop: int, size: int, lines: Option<seq<Piece>>)
    requires lines.Some? ==> s.line <= |lines.value|
    ensures Joins(s.places, start, stop, size) ==> s.places != []
    ensures var k := |s.places| - 1;
            Joins(s.places, start, stop, size) ==>
              var last := s.places[k];
              var piece := Piece(last.start, Max(stop, last.end), last.length + size);
              Take(s, start, stop, size, lines) == State(s.places[k := piece], s.line, piece.end)
    ensures !Joins(s.places, start, stop, size) ==>
              var t := OwnBefore(s, start, lines);
              Take(s, start, stop, size, lines) == State(t.places + [Piece(start, stop, size)], t.line, stop)
  {
  }

  lemma JoinIs(places: seq<Piece>, start: int, stop: int, size: int)
    requires Joins(places, start, stop, size)
    ensures places != [] && places[|places| - 1].length != 0 && start <= LastEnd(places) == places[|places| - 1].end
  {
  }

  lemma MaxIs(a: int, b: int)
    ensures Max(a, b) >= a && Max(a, b) >= b
  {
  }

  lemma GivesAt(marks: seq<Mark>, m: Map, n: int, start: int, stop: int, size: int)
    requires In(marks, m) && m.count > 0 && Gives(marks, m, n, start, stop, size)
    ensures 0 <= start < stop && 0 < size
  {
  }

  lemma NotJoined(places: seq<Piece>, start: int, stop: int, size: int)
    requires places != [] && places[|places| - 1].length > 0 && !Joins(places, start, stop, size)
    ensures LastEnd(places) <= start
  {
  }

  lemma JoinReads(marks: seq<Mark>, m: Map, places: seq<Piece>, n: int, start: int, stop: int, size: int)
    requires In(marks, m) && m.count > 0 && Placed(marks, m, places, n) && Gives(marks, m, n, start, stop, size)
    requires places != [] && places[|places| - 1].start <= start && places[|places| - 1].length > 0
    ensures var last := places[|places| - 1];
            Placed(marks, m, places[|places| - 1 := Piece(last.start, Max(stop, last.end), last.length + size)], n + size)
  {
    hide At;
    var k := |places| - 1;
    var last := places[k];
    var piece := Piece(last.start, Max(stop, last.end), last.length + size);
    SumLast(places, piece);
    forall x | Before(places, k) <= x < Before(places, k) + piece.length
      ensures Within(marks, m, piece, x)
    {
      if x < n {
        assert Holds(marks, m, last, Before(places, k));
        assert Within(marks, m, last, x);
      }
    }
  }

  lemma GivesHolds(marks: seq<Mark>, m: Map, n: int, start: int, stop: int, size: int)
    requires In(marks, m) && m.count > 0 && Gives(marks, m, n, start, stop, size)
    ensures Holds(marks, m, Piece(start, stop, size), n)
  {
    hide At;
    var piece, end := Piece(start, stop, size), n + size;
    forall x | n <= x < end
      ensures Within(marks, m, piece, x)
    {
    }
  }

  lemma AppendReads(marks: seq<Mark>, m: Map, places: seq<Piece>, n: int, start: int, stop: int, size: int)
    requires In(marks, m) && m.count > 0 && Placed(marks, m, places, n) && Gives(marks, m, n, start, stop, size)
    requires places != [] ==> LastEnd(places) <= start
    ensures Placed(marks, m, places + [Piece(start, stop, size)], n + size)
  {
    hide At, Sum, Before, Holds;
    var piece := Piece(start, stop, size);
    SumOn(places, piece);
    BeforeAll(places);
    GivesHolds(marks, m, n, start, stop, size);
    forall p | 0 <= p < |places + [piece]|
      ensures Holds(marks, m, (places + [piece])[p], Before(places + [piece], p))
    {
      if p < |places| {
        assert Holds(marks, m, places[p], Before(places, p));
      }
    }
  }

  /** The own lines left after the last slice. */
  lemma {:induction false} ClosePlaced(marks: seq<Mark>, m: Map, s: State, n: int, lines: Option<seq<Piece>>)
    requires In(marks, m) && m.count > 0 && Placed(marks, m, s.places, n) && LinedUp(lines, s.line)
    requires lines.Some? ==> Clear(s.places, s.line, s.at, lines.value)
    ensures Placed(marks, m, Close(s, lines), n)
    decreases if lines.Some? then |lines.value| - s.line else 0
  {
    hide Placed;
    if lines.Some? && s.line < |lines.value| {
      var own := lines.value[s.line];
      OwnPlaced(marks, m, s.places, n, Max(s.at, own.start), own.end);
      ClosePlaced(marks, m, State(AddOwn(s.places, Max(s.at, own.start), own.end), s.line + 1, s.at), n, lines);
    }
  }

  // ---------- A map's slices ----------

  /** Where the slice of run `i` begins. */
  ghost function From(marks: seq<Mark>, m: Map, first: nat, i: nat): int
    requires i < |marks|
  {
    if i <= first then m.offset else marks[i].at
  }

  /** Where a read stands before run `i`, `first` being the run of the content's first byte. */
  ghost function ReadTo(marks: seq<Mark>, m: Map, first: nat, i: nat, lines: Option<seq<Piece>>): (s: State)
    requires first <= i < |marks|
    ensures lines.Some? ==> s.line <= |lines.value|
    decreases i
  {
    if i == first then State([], 0, 0)
    else
      var s, from := ReadTo(marks, m, first, i - 1, lines), From(marks, m, first, i - 1);
      var t := Take(s, SliceStart(marks[i - 1], from), SliceStop(marks[i - 1], from, marks[i].at), marks[i].at - from, lines);
      TakeLine(s, SliceStart(marks[i - 1], from), SliceStop(marks[i - 1], from, marks[i].at), marks[i].at - from, lines);
      t
  }

  lemma {:induction false} PassStays(places: seq<Piece>, line: nat, at: int, start: int, lines: seq<Piece>)
    requires line <= |lines|
    ensures line <= PassLines(places, line, at, start, lines).1 <= |lines|
    decreases |lines| - line
  {
    if line < |lines| && lines[line].end <= start {
      PassStays(AddOwn(places, Max(at, lines[line].start), lines[line].end), line + 1, at, start, lines);
    }
  }

  lemma TakeLine(s: State, start: int, stop: int, size: int, lines: Option<seq<Piece>>)
    requires lines.Some? ==> s.line <= |lines.value|
    ensures lines.Some? ==> Take(s, start, stop, size, lines).line <= |lines.value|
  {
    if lines.Some? {
      PassStays(s.places, s.line, s.at, start, lines.value);
    }
  }

  /** Each byte of a map goes forward in the source from the one before it, or stands for the same of it. */
  ghost predicate Forward(marks: seq<Mark>, m: Map)
    requires Runs(marks, m)
  {
    && (forall i :: m.first <= i < m.first + m.count ==> marks[i].step >= 0 && marks[i].width >= 1)
    && (forall i :: m.first <= i && i + 1 < m.first + m.count ==>
          SliceStart(marks[i], marks[i + 1].at - 1) <= marks[i + 1].source)
  }

  /** A map that a content of `length` bytes is read through: it has its first byte's run, and goes forward from
      the source's start. */
  ghost predicate Readable(marks: seq<Mark>, m: Map)
  {
    && Runs(marks, m) && marks[m.first].at <= m.offset && Forward(marks, m)
    && 0 <= SliceStart(marks[FirstRun(marks, m)], m.offset)
  }

  ghost function FirstRun(marks: seq<Mark>, m: Map): (i: nat)
    requires In(marks, m) && m.count > 0
    ensures m.first <= i < m.first + m.count
  {
    RunAt(marks, m.first, m.count, m.offset)
  }

  lemma SliceGrows(mark: Mark, from: int, o: int, to: int)
    requires from <= o < to && mark.step >= 0 && mark.width >= 1
    ensures SliceStart(mark, from) <= SpotOf(mark, o).start && SpotOf(mark, o).end <= SliceStop(mark, from, to)
    ensures SliceStart(mark, from) < SliceStop(mark, from, to)
    ensures SliceStart(mark, from) <= SliceStart(mark, to - 1)
  {
    TimesUp(from - mark.at, o - mark.at, mark.step);
    TimesUp(0, to - from - 1, mark.step);
    TimesUp(o - from, to - from - 1, mark.step);
    TimesUp(from - mark.at, to - 1 - mark.at, mark.step);
    assert (o - mark.at) * mark.step == (from - mark.at) * mark.step + (o - from) * mark.step;
  }

  /** The slice of run `i` gives its bytes from the source it is read from. */
  lemma SliceGives(marks: seq<Mark>, m: Map, i: nat, from: int, to: int)
    requires Runs(marks, m) && Forward(marks, m) && m.first <= i < m.first + m.count
    requires marks[i].at <= from < to && (i + 1 < m.first + m.count ==> to <= marks[i + 1].at) && 0 <= SliceStart(marks[i], from)
    ensures Gives(marks, m, from - m.offset, SliceStart(marks[i], from), SliceStop(marks[i], from, to), to - from)
  {
    hide At, RunAt, SpotOf, SliceStart, SliceStop;
    SliceGrows(marks[i], from, from, to);
    forall x | from - m.offset <= x < to - m.offset
      ensures SliceStart(marks[i], from) <= At(marks, m, x).start && At(marks, m, x).end <= SliceStop(marks[i], from, to)
    {
      RunIs(marks, m.first, m.count, x + m.offset, i);
      AtRun(marks, m, x, i);
      SliceGrows(marks[i], from, x + m.offset, to);
    }
  }

  /** A READ up to a run holds every byte before it, and goes on from no earlier in the source. */
  lemma {:induction false} ReadSteps(marks: seq<Mark>, m: Map, i: nat, lines: Option<seq<Piece>>)
    requires Readable(marks, m) && LinedUp(lines, 0) && FirstRun(marks, m) <= i < m.first + m.count
    ensures var first, s := FirstRun(marks, m), ReadTo(marks, m, FirstRun(marks, m), i, lines);
            && marks[i].at <= From(marks, m, first, i) && 0 <= SliceStart(marks[i], From(marks, m, first, i))
            && Reading(marks, m, s, From(marks, m, first, i) - m.offset, lines)
            && (s.places != [] ==> s.places[|s.places| - 1].start <= SliceStart(marks[i], From(marks, m, first, i)))
    decreases i
  {
    hide *;
    ReadableParts(marks, m);
    FirstFits(marks, m);
    var first := FirstRun(marks, m);
    if i == first {
      ReadStarts(marks, m, lines);
    } else {
      ReadSteps(marks, m, i - 1, lines);
      FromIs(marks, m, first, i - 1);
      FromIs(marks, m, first, i);
      ReadToOn(marks, m, first, i, lines);
      var from, to := From(marks, m, first, i - 1), marks[i].at;
      RunsGrow(marks, m, i - 1);
      SliceGives(marks, m, i - 1, from, to);
      SliceGrows(marks[i - 1], from, from, to);
      ForwardAt(marks, m, i);
      TakeReads(marks, m, ReadTo(marks, m, first, i - 1, lines), from - m.offset, SliceStart(marks[i - 1], from),
                SliceStop(marks[i - 1], from, to), to - from, lines);
    }
  }

  lemma ReadableParts(marks: seq<Mark>, m: Map)
    requires Readable(marks, m)
    ensures Runs(marks, m) && marks[m.first].at <= m.offset && Forward(marks, m) && In(marks, m) && m.count > 0
    ensures 0 <= SliceStart(marks[FirstRun(marks, m)], m.offset) && m.first + m.count <= |marks|
  {
  }

  lemma ReadStarts(marks: seq<Mark>, m: Map, lines: Option<seq<Piece>>)
    requires Readable(marks, m) && LinedUp(lines, 0)
    ensures var first, s := FirstRun(marks, m), ReadTo(marks, m, FirstRun(marks, m), FirstRun(marks, m), lines);
            && From(marks, m, first, first) == m.offset && s.places == []
            && Reading(marks, m, s, 0, lines)
  {
    hide RunAt, At, Forward;
  }

  lemma FromIs(marks: seq<Mark>, m: Map, first: nat, i: nat)
    requires i < |marks|
    ensures From(marks, m, first, i) == if i <= first then m.offset else marks[i].at
  {
  }

  lemma ReadToOn(marks: seq<Mark>, m: Map, first: nat, i: nat, lines: Option<seq<Piece>>)
    requires first < i < |marks|
    ensures var s, from := ReadTo(marks, m, first, i - 1, lines), From(marks, m, first, i - 1);
            ReadTo(marks, m, first, i, lines)
            == Take(s, SliceStart(marks[i - 1], from), SliceStop(marks[i - 1], from, marks[i].at), marks[i].at - from, lines)
  {
    hide Take, SliceStart, SliceStop, From;
  }

  lemma RunsGrow(marks: seq<Mark>, m: Map, i: nat)
    requires Runs(marks, m) && m.first <= i && i + 1 < m.first + m.count
    ensures marks[i].at < marks[i + 1].at
  {
  }

  lemma ForwardAt(marks: seq<Mark>, m: Map, i: nat)
    requires Runs(marks, m) && Forward(marks, m) && m.first < i < m.first + m.count
    ensures SliceStart(marks[i - 1], marks[i].at - 1) <= marks[i].source == SliceStart(marks[i], marks[i].at)
    ensures marks[i].step >= 0 && marks[i].width >= 1 && marks[i - 1].step >= 0 && marks[i - 1].width >= 1
  {
    assert SliceStart(marks[i - 1], marks[i - 1 + 1].at - 1) <= marks[i - 1 + 1].source;
  }

  lemma FirstFits(marks: seq<Mark>, m: Map)
    requires Runs(marks, m) && marks[m.first].at <= m.offset
    ensures var first := FirstRun(marks, m);
            marks[first].at <= m.offset && forall i :: first < i < m.first + m.count ==> marks[i].at > m.offset
  {
    RunFits(marks, m.first, m.count, m.offset);
  }

  // ---------- The whole read ----------

  ghost function LastRun(marks: seq<Mark>, m: Map, length: int): (i: nat)
    requires In(marks, m) && m.count > 0
    ensures m.first <= i < m.first + m.count
  {
    RunAt(marks, m.first, m.count, m.offset + length - 1)
  }

  lemma LastFits(marks: seq<Mark>, m: Map, length: int)
    requires Runs(marks, m) && marks[m.first].at <= m.offset && length > 0
    ensures var first, last := FirstRun(marks, m), LastRun(marks, m, length);
            && first <= last && From(marks, m, first, last) < m.offset + length && marks[last].at <= From(marks, m, first, last)
            && (forall i :: last < i < m.first + m.count ==> marks[i].at >= m.offset + length)
            && (forall i :: first < i <= last ==> m.offset < marks[i].at < m.offset + length)
  {
    hide RunAt;
    RunFits(marks, m.first, m.count, m.offset);
    RunFits(marks, m.first, m.count, m.offset + length - 1);
    RunOrder(marks, m.first, m.count, m.offset, m.offset + length - 1);
  }

  /** Where a read of `length` bytes stands once it has read the last. */
  ghost function ReadLast(marks: seq<Mark>, m: Map, length: int, lines: Option<seq<Piece>>): (s: State)
    requires Runs(marks, m) && marks[m.first].at <= m.offset && length > 0
    ensures lines.Some? ==> s.line <= |lines.value|
  {
    LastFits(marks, m, length);
    var first, last := FirstRun(marks, m), LastRun(marks, m, length);
    var s, from := ReadTo(marks, m, first, last, lines), From(marks, m, first, last);
    TakeLine(s, SliceStart(marks[last], from), SliceStop(marks[last], from, m.offset + length), m.offset + length - from, lines);
    Take(s, SliceStart(marks[last], from), SliceStop(marks[last], from, m.offset + length), m.offset + length - from, lines)
  }

  /** The places of `length` content bytes. */
  ghost function ReadAll(marks: seq<Mark>, m: Map, length: int, lines: Option<seq<Piece>>): seq<Piece>
    requires Runs(marks, m) && marks[m.first].at <= m.offset && length > 0
  {
    Close(ReadLast(marks, m, length, lines), lines)
  }

  lemma ReadLastReads(marks: seq<Mark>, m: Map, length: int, lines: Option<seq<Piece>>)
    requires Readable(marks, m) && LinedUp(lines, 0) && length > 0
    ensures Reading(marks, m, ReadLast(marks, m, length, lines), length, lines)
  {
    hide At, RunAt, Take, Gives, Reading, ReadTo, SliceStart, SliceStop;
    LastFits(marks, m, length);
    var first, last, to := FirstRun(marks, m), LastRun(marks, m, length), m.offset + length;
    ReadSteps(marks, m, last, lines);
    var s, from := ReadTo(marks, m, first, last, lines), From(marks, m, first, last);
    SliceGives(marks, m, last, from, to);
    TakeReads(marks, m, s, from - m.offset, SliceStart(marks[last], from), SliceStop(marks[last], from, to), to - from, lines);
  }

  /** A READ IS FAITHFUL: its places' lengths sum to the content's, their sources are in order and apart or
      touching, and each content byte's source lies in the place the byte is read from. */
  lemma ReadPlaces(marks: seq<Mark>, m: Map, length: int, lines: Option<seq<Piece>>)
    requires Readable(marks, m) && LinedUp(lines, 0) && length > 0
    ensures Placed(marks, m, ReadAll(marks, m, length, lines), length)
  {
    hide Placed, ReadLast, At, RunAt;
    ReadLastReads(marks, m, length, lines);
    ClosePlaced(marks, m, ReadLast(marks, m, length, lines), length, lines);
  }

  // ---------- Copied places ----------

  /** A place whose content is as long as its source. */
  predicate IsCopied(piece: Piece) {
    piece.length > 0 && piece.end - piece.start == piece.length
  }

  predicate Thick(piece: Piece) {
    piece.end - piece.start <= piece.length
  }

  /** Each content byte of a copied place is read from one source byte, in step. */
  ghost predicate Exact(marks: seq<Mark>, m: Map, places: seq<Piece>)
    requires In(marks, m) && m.count > 0
  {
    forall p :: 0 <= p < |places| && IsCopied(places[p]) ==> ExactAt(marks, m, places[p], Before(places, p))
  }

  ghost predicate ExactAt(marks: seq<Mark>, m: Map, piece: Piece, from: int)
    requires In(marks, m) && m.count > 0
  {
    Shifted(marks, m, from, piece.length, piece.start - from)
  }

  /** The `length` content bytes from `from` on are each read from the source byte `shift` on from them. */
  ghost predicate Shifted(marks: seq<Mark>, m: Map, from: int, length: int, shift: int)
    requires In(marks, m) && m.count > 0
  {
    forall x :: from <= x < from + length ==> ByteAt(marks, m, x, shift)
  }

  /** Content byte `x` is read from source byte `x + shift`. */
  ghost predicate ByteAt(marks: seq<Mark>, m: Map, x: int, shift: int)
    requires In(marks, m) && m.count > 0
  {
    At(marks, m, x).start == x + shift && At(marks, m, x).end == x + shift + 1
  }

  lemma OwnExact(marks: seq<Mark>, m: Map, places: seq<Piece>, start: int, end: int)
    requires In(marks, m) && m.count > 0 && Exact(marks, m, places)
    ensures Exact(marks, m, AddOwn(places, start, end))
  {
    hide ByteAt;
    if start < end {
      if places != [] && places[|places| - 1].length == 0 && places[|places| - 1].end == start {
        SumLast(places, places[|places| - 1].(end := end));
      } else {
        SumOn(places, Piece(start, end, 0));
      }
    }
  }

  lemma {:induction false} PassExact(marks: seq<Mark>, m: Map, places: seq<Piece>, line: nat, at: int, start: int, lines: seq<Piece>)
    requires In(marks, m) && m.count > 0 && Exact(marks, m, places) && line <= |lines|
    ensures Exact(marks, m, PassLines(places, line, at, start, lines).0)
    decreases |lines| - line
  {
    hide Exact, AddOwn;
    if line < |lines| && lines[line].end <= start {
      OwnExact(marks, m, places, Max(at, lines[line].start), lines[line].end);
      PassExact(marks, m, AddOwn(places, Max(at, lines[line].start), lines[line].end), line + 1, at, start, lines);
    }
  }

  lemma OwnBeforeExact(marks: seq<Mark>, m: Map, s: State, start: int, lines: Option<seq<Piece>>)
    requires In(marks, m) && m.count > 0 && Exact(marks, m, s.places) && (lines.Some? ==> s.line <= |lines.value|)
    ensures Exact(marks, m, OwnBefore(s, start, lines).places)
  {
    hide Exact, AddOwn, PassLines;
    match lines
    case None =>
      OwnExact(marks, m, s.places, s.at, start);
    case Some(ls) =>
      PassExact(marks, m, s.places, s.line, s.at, start, ls);
      var (places, line) := PassLines(s.places, s.line, s.at, start, ls);
      if line < |ls| {
        OwnExact(marks, m, places, Max(s.at, ls[line].start), start);
      }
  }

  lemma {:induction false} CloseExact(marks: seq<Mark>, m: Map, s: State, lines: Option<seq<Piece>>)
    requires In(marks, m) && m.count > 0 && Exact(marks, m, s.places) && (lines.Some? ==> s.line <= |lines.value|)
    ensures Exact(marks, m, Close(s, lines))
    decreases if lines.Some? then |lines.value| - s.line else 0
  {
    hide Exact, AddOwn;
    if lines.Some? && s.line < |lines.value| {
      var own := lines.value[s.line];
      OwnExact(marks, m, s.places, Max(s.at, own.start), own.end);
      CloseExact(marks, m, State(AddOwn(s.places, Max(s.at, own.start), own.end), s.line + 1, s.at), lines);
    }
  }

  /** A slice as long as its source is read from it byte by byte. */
  ghost predicate Plain(marks: seq<Mark>, m: Map, n: int, start: int, stop: int, size: int)
    requires In(marks, m) && m.count > 0
  {
    stop - start == size ==> Shifted(marks, m, n, size, start - n)
  }

  lemma TakeExact(marks: seq<Mark>, m: Map, s: State, n: int, start: int, stop: int, size: int, lines: Option<seq<Piece>>)
    requires In(marks, m) && m.count > 0 && Reading(marks, m, s, n, lines) && Exact(marks, m, s.places)
    requires 0 < size && start < stop && Plain(marks, m, n, start, stop, size)
    requires s.places != [] ==> LastEnd(s.places) <= start || (stop == LastEnd(s.places) && Thick(s.places[|s.places| - 1]))
    requires s.places == [] ==> 0 <= start
    ensures var t := Take(s, start, stop, size, lines);
            && Exact(marks, m, t.places) && t.places != [] && LastEnd(t.places) == stop
            && (stop - start <= size ==> Thick(t.places[|t.places| - 1]))
  {
    hide *;
    ReadingParts(marks, m, s, n, lines);
    TakeIs(s, start, stop, size, lines);
    if Joins(s.places, start, stop, size) {
      PlacedSum(marks, m, s.places, n);
      JoinExact(marks, m, s.places, n, start, stop, size);
    } else {
      if s.places != [] {
        NotJoined(s.places, start, stop, size);
      }
      OwnBeforePlaced(marks, m, s, n, start, lines);
      PlacedSum(marks, m, OwnBefore(s, start, lines).places, n);
      OwnBeforeExact(marks, m, s, start, lines);
      AppendExact(marks, m, OwnBefore(s, start, lines).places, n, start, stop, size);
    }
  }

  lemma PlacedSum(marks: seq<Mark>, m: Map, places: seq<Piece>, n: int)
    requires In(marks, m) && m.count > 0 && Placed(marks, m, places, n)
    ensures Sum(places) == n
  {
  }

  lemma JoinExact(marks: seq<Mark>, m: Map, places: seq<Piece>, n: int, start: int, stop: int, size: int)
    requires In(marks, m) && m.count > 0 && Exact(marks, m, places) && Sum(places) == n && places != []
    requires Joins(places, start, stop, size) && 0 < size && start < stop && Plain(marks, m, n, start, stop, size)
    requires LastEnd(places) <= start || (stop == LastEnd(places) && Thick(places[|places| - 1]))
    requires places[|places| - 1].length > 0
    ensures var k := |places| - 1;
            var piece := Piece(places[k].start, Max(stop, places[k].end), places[k].length + size);
            && Exact(marks, m, places[k := piece]) && piece.end == stop == LastEnd(places[k := piece]) && Thick(piece)
  {
    hide ByteAt;
    var k := |places| - 1;
    var last := places[k];
    var piece := Piece(last.start, Max(stop, last.end), last.length + size);
    SumLast(places, piece);
    if IsCopied(piece) {
      assert last.end == start && IsCopied(last);
      assert ExactAt(marks, m, last, Before(places, k));
      assert start - n == piece.start - Before(places, k);
    }
  }

  lemma AppendExact(marks: seq<Mark>, m: Map, places: seq<Piece>, n: int, start: int, stop: int, size: int)
    requires In(marks, m) && m.count > 0 && Exact(marks, m, places) && Sum(places) == n && Plain(marks, m, n, start, stop, size)
    ensures Exact(marks, m, places + [Piece(start, stop, size)])
    ensures LastEnd(places + [Piece(start, stop, size)]) == stop
    ensures stop - start <= size ==> Thick((places + [Piece(start, stop, size)])[|places|])
  {
    hide Sum, Before, Shifted, ByteAt, IsCopied;
    var piece := Piece(start, stop, size);
    SumOn(places, piece);
    BeforeAll(places);
    forall p | 0 <= p < |places + [piece]| && IsCopied((places + [piece])[p])
      ensures ExactAt(marks, m, (places + [piece])[p], Before(places + [piece], p))
    {
      if p < |places| {
        assert (places + [piece])[p] == places[p];
      } else {
        CopiedIs(piece);
      }
    }
  }

  lemma CopiedIs(piece: Piece)
    ensures IsCopied(piece) <==> piece.length > 0 && piece.end - piece.start == piece.length
  {
  }

  lemma BeforeAll(places: seq<Piece>)
    ensures Before(places, |places|) == Sum(places)
  {
    assert places[..|places|] == places;
  }

  /** Where the slice of run `i` ends, `last` being the run of the content's last byte. */
  ghost function To(marks: seq<Mark>, m: Map, last: nat, length: int, i: nat): int
    requires last < |marks|
  {
    if i < last then marks[i + 1].at else m.offset + length
  }

  ghost function Start(marks: seq<Mark>, m: Map, first: nat, i: nat): int
    requires i < |marks|
  {
    SliceStart(marks[i], From(marks, m, first, i))
  }

  ghost function Stop(marks: seq<Mark>, m: Map, first: nat, last: nat, length: int, i: nat): int
    requires last < |marks| && i < |marks|
  {
    SliceStop(marks[i], From(marks, m, first, i), To(marks, m, last, length, i))
  }

  ghost function Size(marks: seq<Mark>, m: Map, first: nat, last: nat, length: int, i: nat): int
    requires last < |marks| && i < |marks|
  {
    To(marks, m, last, length, i) - From(marks, m, first, i)
  }

  /** Run `i` is copied byte by byte when its slice is as long as its source, and the run after it reads source
      past it, or the very source it reads when that is no longer than its content, as a tab's columns do. */
  ghost predicate NeatAt(marks: seq<Mark>, m: Map, first: nat, last: nat, length: int, i: nat)
    requires last < |marks| && i <= last
  {
    var start, stop := Start(marks, m, first, i), Stop(marks, m, first, last, length, i);
    var size := Size(marks, m, first, last, length, i);
    && (stop - start == size ==> size == 1 || marks[i].step == 1)
    && (i < last ==>
          || stop <= Start(marks, m, first, i + 1)
          || (start == Start(marks, m, first, i + 1) && stop == Stop(marks, m, first, last, length, i + 1) && stop - start <= size))
  }

  ghost predicate Neat(marks: seq<Mark>, m: Map, length: int)
    requires In(marks, m) && m.count > 0
  {
    var first, last := FirstRun(marks, m), LastRun(marks, m, length);
    forall i :: first <= i <= last ==> NeatAt(marks, m, first, last, length, i)
  }

  lemma PlainSlice(marks: seq<Mark>, m: Map, i: nat, from: int, to: int)
    requires Runs(marks, m) && m.first <= i < m.first + m.count
    requires marks[i].at <= from < to && (i + 1 < m.first + m.count ==> to <= marks[i + 1].at)
    requires var start, stop := SliceStart(marks[i], from), SliceStop(marks[i], from, to);
             stop - start == to - from ==> to - from == 1 || marks[i].step == 1
    ensures Plain(marks, m, from - m.offset, SliceStart(marks[i], from), SliceStop(marks[i], from, to), to - from)
  {
    hide At, RunAt;
    var start, stop := SliceStart(marks[i], from), SliceStop(marks[i], from, to);
    if stop - start == to - from {
      var n := from - m.offset;
      var shift := start - n;
      forall x | n <= x < n + (to - from)
        ensures ByteAt(marks, m, x, shift)
      {
        RunIs(marks, m.first, m.count, x + m.offset, i);
        AtRun(marks, m, x, i);
        if to - from == 1 {
          assert x + m.offset == from;
        }
      }
    }
  }

  /** A neat read up to a run has its copied places exact. */
  lemma {:induction false} ExactSteps(marks: seq<Mark>, m: Map, length: int, i: nat, lines: Option<seq<Piece>>)
    requires Readable(marks, m) && LinedUp(lines, 0) && length > 0 && Neat(marks, m, length)
    requires FirstRun(marks, m) <= i <= LastRun(marks, m, length)
    ensures var first, last := FirstRun(marks, m), LastRun(marks, m, length);
            var s := ReadTo(marks, m, first, i, lines);
            && Exact(marks, m, s.places)
            && (i > first ==>
                  && s.places != [] && LastEnd(s.places) == Stop(marks, m, first, last, length, i - 1)
                  && (Stop(marks, m, first, last, length, i - 1) - Start(marks, m, first, i - 1) <= Size(marks, m, first, last, length, i - 1)
                      ==> Thick(s.places[|s.places| - 1])))
    decreases i
  {
    hide *;
    ReadableParts(marks, m);
    var first, last := FirstRun(marks, m), LastRun(marks, m, length);
    if i == first {
      ExactStarts(marks, m, lines);
    } else {
      ExactSteps(marks, m, length, i - 1, lines);
      ExactStep(marks, m, length, i - 1, ReadTo(marks, m, first, i - 1, lines), lines);
      ReadToIs(marks, m, length, i, lines);
    }
  }

  lemma ExactStarts(marks: seq<Mark>, m: Map, lines: Option<seq<Piece>>)
    requires Readable(marks, m)
    ensures Exact(marks, m, ReadTo(marks, m, FirstRun(marks, m), FirstRun(marks, m), lines).places)
  {
    hide RunAt;
  }

  lemma ReadToIs(marks: seq<Mark>, m: Map, length: int, i: nat, lines: Option<seq<Piece>>)
    requires Readable(marks, m) && length > 0 && FirstRun(marks, m) < i <= LastRun(marks, m, length)
    ensures var first, last := FirstRun(marks, m), LastRun(marks, m, length);
            ReadTo(marks, m, first, i, lines)
            == Take(ReadTo(marks, m, first, i - 1, lines), Start(marks, m, first, i - 1), Stop(marks, m, first, last, length, i - 1),
                    Size(marks, m, first, last, length, i - 1), lines)
  {
    hide Take, RunAt, SliceStart, SliceStop;
    ReadToOn(marks, m, FirstRun(marks, m), i, lines);
  }

  /** What one slice of a neat read leaves. */
  lemma ExactStep(marks: seq<Mark>, m: Map, length: int, i: nat, s: State, lines: Option<seq<Piece>>)
    requires Readable(marks, m) && LinedUp(lines, 0) && length > 0 && Neat(marks, m, length)
    requires FirstRun(marks, m) <= i <= LastRun(marks, m, length) && s == ReadTo(marks, m, FirstRun(marks, m), i, lines)
    requires Exact(marks, m, s.places)
    requires var first, last := FirstRun(marks, m), LastRun(marks, m, length);
             i > first ==>
               && s.places != [] && LastEnd(s.places) == Stop(marks, m, first, last, length, i - 1)
               && (Stop(marks, m, first, last, length, i - 1) - Start(marks, m, first, i - 1) <= Size(marks, m, first, last, length, i - 1)
                   ==> Thick(s.places[|s.places| - 1]))
    ensures var first, last := FirstRun(marks, m), LastRun(marks, m, length);
            var start, stop, size := Start(marks, m, first, i), Stop(marks, m, first, last, length, i), Size(marks, m, first, last, length, i);
            var t := Take(s, start, stop, size, lines);
            && Exact(marks, m, t.places) && t.places != [] && LastEnd(t.places) == stop
            && (stop - start <= size ==> Thick(t.places[|t.places| - 1]))
  {
    hide *;
    ReadableParts(marks, m);
    var first, last := FirstRun(marks, m), LastRun(marks, m, length);
    ReadSteps(marks, m, i, lines);
    NeatParts(marks, m, length, i);
    SliceParts(marks, m, length, i);
    if i == first {
      ReadStarts(marks, m, lines);
    } else {
      NeatParts(marks, m, length, i - 1);
    }
    PlainSlice(marks, m, i, From(marks, m, first, i), To(marks, m, last, length, i));
    TakeExact(marks, m, s, From(marks, m, first, i) - m.offset, Start(marks, m, first, i), Stop(marks, m, first, last, length, i),
              Size(marks, m, first, last, length, i), lines);
  }

  lemma NeatParts(marks: seq<Mark>, m: Map, length: int, i: nat)
    requires In(marks, m) && m.count > 0 && Neat(marks, m, length) && FirstRun(marks, m) <= i <= LastRun(marks, m, length)
    ensures var first, last := FirstRun(marks, m), LastRun(marks, m, length);
            var start, stop, size := Start(marks, m, first, i), Stop(marks, m, first, last, length, i), Size(marks, m, first, last, length, i);
            && (stop - start == size ==> size == 1 || marks[i].step == 1)
            && (i < last ==>
                  || stop <= Start(marks, m, first, i + 1)
                  || (start == Start(marks, m, first, i + 1) && stop == Stop(marks, m, first, last, length, i + 1) && stop - start <= size))
  {
    hide RunAt, Start, Stop, Size;
    assert NeatAt(marks, m, FirstRun(marks, m), LastRun(marks, m, length), length, i);
  }

  lemma SliceParts(marks: seq<Mark>, m: Map, length: int, i: nat)
    requires Readable(marks, m) && length > 0 && FirstRun(marks, m) <= i <= LastRun(marks, m, length)
    ensures var first, last := FirstRun(marks, m), LastRun(marks, m, length);
            var from, to := From(marks, m, first, i), To(marks, m, last, length, i);
            && m.first <= i < m.first + m.count && marks[i].at <= from < to && (i + 1 < m.first + m.count ==> to <= marks[i + 1].at)
            && Start(marks, m, first, i) == SliceStart(marks[i], from) && Stop(marks, m, first, last, length, i) == SliceStop(marks[i], from, to)
            && Size(marks, m, first, last, length, i) == to - from > 0
            && Start(marks, m, first, i) < Stop(marks, m, first, last, length, i)
  {
    hide RunAt, SliceStart, SliceStop;
    LastFits(marks, m, length);
    FirstFits(marks, m);
    var first, last := FirstRun(marks, m), LastRun(marks, m, length);
    if i < last {
      RunsGrow(marks, m, i);
    }
    SliceGrows(marks[i], From(marks, m, first, i), From(marks, m, first, i), To(marks, m, last, length, i));
  }

  /** A COPIED PLACE IS BYTE FOR BYTE in a neat read. */
  lemma ReadExact(marks: seq<Mark>, m: Map, length: int, lines: Option<seq<Piece>>)
    requires Readable(marks, m) && LinedUp(lines, 0) && length > 0 && Neat(marks, m, length)
    ensures Exact(marks, m, ReadAll(marks, m, length, lines))
  {
    hide *;
    ReadableParts(marks, m);
    var first, last := FirstRun(marks, m), LastRun(marks, m, length);
    LastFits(marks, m, length);
    ExactSteps(marks, m, length, last, lines);
    ExactStep(marks, m, length, last, ReadTo(marks, m, first, last, lines), lines);
    LastIs(marks, m, length, lines);
    CloseExact(marks, m, ReadLast(marks, m, length, lines), lines);
    ReadAllIs(marks, m, length, lines);
  }

  lemma LastIs(marks: seq<Mark>, m: Map, length: int, lines: Option<seq<Piece>>)
    requires Readable(marks, m) && length > 0
    ensures FirstRun(marks, m) <= LastRun(marks, m, length)
    ensures var first, last, s := FirstRun(marks, m), LastRun(marks, m, length), ReadLast(marks, m, length, lines);
            && s == Take(ReadTo(marks, m, first, last, lines), Start(marks, m, first, last), Stop(marks, m, first, last, length, last),
                         Size(marks, m, first, last, length, last), lines)
            && (lines.Some? ==> s.line <= |lines.value|)
  {
    hide Take, RunAt, SliceStart, SliceStop;
    ReadLastIs(marks, m, length, lines);
  }

  // ---------- The maps of the contents that are read ----------

  lemma StopSame(mark: Mark, from: int, upto: int)
    ensures SliceStop(mark, from, upto) == SliceStop(mark, mark.at, upto)
    ensures SliceStop(mark, from, upto) - SliceStart(mark, from) == (upto - from - 1) * mark.step + mark.width
    ensures SliceStart(mark, mark.at) == mark.source
  {
  }

  /** A run cut at both ends is read byte by byte when its slice is as long as its source. */
  lemma RunNeat(mark: Mark, size: int, from: int, upto: int)
    requires IsRun(mark, size) && mark.at <= from < upto <= mark.at + size
    ensures SliceStop(mark, from, upto) - SliceStart(mark, from) == upto - from ==> upto - from == 1 || mark.step == 1
    ensures SliceStop(mark, mark.at, upto) >= SliceStart(mark, from) >= mark.source
    ensures mark.step >= 0 && mark.width >= 1
  {
    StopSame(mark, from, upto);
    TimesUp(0, from - mark.at, mark.step);
    TimesUp(0, upto - from - 1, mark.step);
  }

  lemma RunOfSourced(marks: seq<Mark>, m: Map, n: int, i: nat)
    requires Sourced(marks, m, n) && m.first <= i < m.first + m.count
    ensures RunEnd(marks, m, n, i) > marks[i].at && IsRun(marks[i], RunEnd(marks, m, n, i) - marks[i].at) && 0 <= marks[i].source
    ensures i + 1 < m.first + m.count ==> SliceStop(marks[i], marks[i].at, marks[i + 1].at) <= marks[i + 1].source
  {
    hide SliceStop, IsRun;
    SourceUp(marks, m, n, i);
    assert RunIn(marks, m, n, i);
    if i + 1 < m.first + m.count {
      assert Past(marks, i);
    }
  }

  /** A MAP THAT GOES FORWARD IS READABLE. */
  lemma SourcedReadable(marks: seq<Mark>, m: Map, n: int)
    requires Sourced(marks, m, n) && m.count > 0
    ensures Readable(marks, m)
  {
    hide RunAt, SliceStart, SliceStop, IsRun, AllRuns, AllPast;
    forall i | m.first <= i < m.first + m.count
      ensures marks[i].step >= 0 && marks[i].width >= 1
    {
      RunOfSourced(marks, m, n, i);
      RunNeat(marks[i], RunEnd(marks, m, n, i) - marks[i].at, marks[i].at, marks[i].at + 1);
    }
    forall i | m.first <= i && i + 1 < m.first + m.count
      ensures SliceStart(marks[i], marks[i + 1].at - 1) <= marks[i + 1].source
    {
      RunOfSourced(marks, m, n, i);
      RunNeat(marks[i], marks[i + 1].at - marks[i].at, marks[i + 1].at - 1, marks[i + 1].at);
    }
    var first := FirstRun(marks, m);
    RunFits(marks, m.first, m.count, m.offset);
    RunOfSourced(marks, m, n, first);
    StartUp(marks[first], RunEnd(marks, m, n, first) - marks[first].at, m.offset);
  }

  lemma StartUp(mark: Mark, size: int, from: int)
    requires IsRun(mark, size) && mark.at <= from && 0 <= mark.source
    ensures 0 <= SliceStart(mark, from)
  {
    TimesUp(0, from - mark.at, mark.step);
  }

  /** and neat, in a read of any of its content. */
  lemma SourcedNeat(marks: seq<Mark>, m: Map, n: int, length: int)
    requires Sourced(marks, m, n) && m.count > 0 && 0 < length <= n
    ensures Neat(marks, m, length)
  {
    hide *;
    SourcedReadable(marks, m, n);
    ReadableParts(marks, m);
    var first, last := FirstRun(marks, m), LastRun(marks, m, length);
    LastFits(marks, m, length);
    forall i: nat | first <= i <= last
      ensures NeatAt(marks, m, first, last, length, i)
    {
      SourcedNeatAt(marks, m, n, length, i);
    }
    NeatFrom(marks, m, length);
  }

  lemma NeatFrom(marks: seq<Mark>, m: Map, length: int)
    requires In(marks, m) && m.count > 0 && LastRun(marks, m, length) < |marks|
    requires forall i: nat :: FirstRun(marks, m) <= i <= LastRun(marks, m, length) ==>
               NeatAt(marks, m, FirstRun(marks, m), LastRun(marks, m, length), length, i)
    ensures Neat(marks, m, length)
  {
    hide NeatAt, RunAt;
  }

  lemma SourcedNeatAt(marks: seq<Mark>, m: Map, n: int, length: int, i: nat)
    requires Sourced(marks, m, n) && m.count > 0 && 0 < length <= n && Readable(marks, m)
    requires FirstRun(marks, m) <= i <= LastRun(marks, m, length)
    ensures NeatAt(marks, m, FirstRun(marks, m), LastRun(marks, m, length), length, i)
  {
    hide RunAt, SliceStart, SliceStop, IsRun, Sourced, Readable, Neat;
    ReadableParts(marks, m);
    var first, last := FirstRun(marks, m), LastRun(marks, m, length);
    LastFits(marks, m, length);
    SliceParts(marks, m, length, i);
    RunOfSourced(marks, m, n, i);
    var from, upto := From(marks, m, first, i), To(marks, m, last, length, i);
    RunNeat(marks[i], RunEnd(marks, m, n, i) - marks[i].at, from, upto);
    StopSame(marks[i], from, upto);
    if i < last {
      SliceParts(marks, m, length, i + 1);
      StopSame(marks[i + 1], marks[i + 1].at, upto);
    }
  }

  /** THE PLACES OF A CONTENT WHOSE MAP GOES FORWARD ARE FAITHFUL: they are of all its bytes, in order, each byte's source
      in the place it is read from, and a copied place is byte for byte. */
  lemma SourcedRead(marks: seq<Mark>, m: Map, n: int, length: int, lines: Option<seq<Piece>>)
    requires Sourced(marks, m, n) && m.count > 0 && 0 < length <= n && LinedUp(lines, 0)
    ensures Placed(marks, m, ReadAll(marks, m, length, lines), length)
    ensures Exact(marks, m, ReadAll(marks, m, length, lines))
  {
    hide *;
    SourcedReadable(marks, m, n);
    ReadableParts(marks, m);
    SourcedNeat(marks, m, n, length);
    ReadPlaces(marks, m, length, lines);
    ReadExact(marks, m, length, lines);
  }

  /** FOR A MAP OF ONE RUN NEATNESS IS JUST WHAT IT TAKES: the place of its content is not read byte for byte, when it is as
      long as that, exactly when the run is not neat. */
  lemma NeatExactly(marks: seq<Mark>, m: Map, length: int)
    requires Runs(marks, m) && m.count == 1 && marks[m.first].at <= m.offset && length > 0 && marks[m.first].width >= 1
    ensures Exact(marks, m, ReadAll(marks, m, length, None)) <==> Neat(marks, m, length)
  {
    hide *;
    OneRunRead(marks, m, length);
    OneRunNeat(marks, m, length);
    OneRunExact(marks, m, length);
  }

  lemma OneRunNeat(marks: seq<Mark>, m: Map, length: int)
    requires Runs(marks, m) && m.count == 1 && length > 0
    ensures In(marks, m)
    ensures Neat(marks, m, length) <==>
              ((length - 1) * marks[m.first].step + marks[m.first].width == length ==> length == 1 || marks[m.first].step == 1)
  {
    hide SliceStart, SliceStop;
    var f := m.first;
    StopSame(marks[f], m.offset, m.offset + length);
    assert FirstRun(marks, m) == f && LastRun(marks, m, length) == f;
    assert Neat(marks, m, length) <==> NeatAt(marks, m, f, f, length, f);
  }

  lemma OneRunExact(marks: seq<Mark>, m: Map, length: int)
    requires Runs(marks, m) && m.count == 1 && length > 0 && marks[m.first].width >= 1
    ensures In(marks, m)
    ensures var mark := marks[m.first];
            var piece := Piece(SliceStart(mark, m.offset), SliceStop(mark, m.offset, m.offset + length), length);
            Exact(marks, m, [piece]) <==> ((length - 1) * mark.step + mark.width == length ==> length == 1 || mark.step == 1)
  {
    hide RunAt, At, SliceStart, SliceStop;
    var mark := marks[m.first];
    var piece := Piece(SliceStart(mark, m.offset), SliceStop(mark, m.offset, m.offset + length), length);
    StopSame(mark, m.offset, m.offset + length);
    assert Before([piece], 0) == 0;
    if IsCopied(piece) {
      if length == 1 || mark.step == 1 {
        forall x | 0 <= x < length
          ensures ByteAt(marks, m, x, piece.start)
        {
          OneRunByte(marks, m, x);
          assert mark.step == 1 ==> mark.width == 1;
        }
        assert ExactAt(marks, m, piece, 0);
      } else if Exact(marks, m, [piece]) {
        OneRunByte(marks, m, 0);
        ExactByte(marks, m, [piece], 0, 0);
        OnlyStep(mark.step, length - 1);
      }
    }
  }

  lemma OnlyStep(step: int, n: int)
    requires n > 0 && n * step == n
    ensures step == 1
  {
    if step > 1 {
      TimesUp(2, step, n);
    } else if step < 1 {
      TimesUp(step, 0, n);
    }
  }

  lemma OneRunByte(marks: seq<Mark>, m: Map, x: int)
    requires In(marks, m) && m.count == 1
    ensures At(marks, m, x).start == SliceStart(marks[m.first], m.offset) + x * marks[m.first].step
    ensures At(marks, m, x).end == At(marks, m, x).start + marks[m.first].width
  {
    OnlyRun(marks, m, x);
  }

  lemma ExactByte(marks: seq<Mark>, m: Map, places: seq<Piece>, p: nat, x: int)
    requires In(marks, m) && m.count > 0 && Exact(marks, m, places) && p < |places| && IsCopied(places[p])
    requires Before(places, p) <= x < Before(places, p) + places[p].length
    ensures ByteAt(marks, m, x, places[p].start - Before(places, p))
  {
    assert ExactAt(marks, m, places[p], Before(places, p));
  }

  lemma OnlyRun(marks: seq<Mark>, m: Map, x: int)
    requires In(marks, m) && m.count == 1
    ensures At(marks, m, x) == SpotOf(marks[m.first], x + m.offset)
  {
  }

  /** A content of one run is one place. */
  lemma OneRunRead(marks: seq<Mark>, m: Map, length: int)
    requires Runs(marks, m) && m.count == 1 && marks[m.first].at <= m.offset && length > 0
    ensures ReadAll(marks, m, length, None)
            == [Piece(SliceStart(marks[m.first], m.offset), SliceStop(marks[m.first], m.offset, m.offset + length), length)]
  {
    hide SliceStart, SliceStop;
    var f := m.first;
    assert ReadTo(marks, m, f, f, None) == State([], 0, 0);
  }

  // ---------- The source between ----------

  /** Each place but the last ends where the next begins. */
  ghost predicate Touching(places: seq<Piece>)
  {
    forall p :: 0 <= p && p + 1 < |places| ==> places[p].end == places[p + 1].start
  }

  lemma TakeTouches(s: State, start: int, stop: int, size: int)
    requires Touching(s.places) && (s.places != [] ==> LastEnd(s.places) == s.at && s.places[|s.places| - 1].length > 0)
    ensures var t := Take(s, start, stop, size, None);
            Touching(t.places) && t.places != [] && LastEnd(t.places) == t.at
  {
  }

  lemma {:induction false} TouchSteps(marks: seq<Mark>, m: Map, i: nat)
    requires Readable(marks, m) && FirstRun(marks, m) <= i < m.first + m.count
    ensures Touching(ReadTo(marks, m, FirstRun(marks, m), i, None).places)
    decreases i
  {
    hide RunAt, Take, SliceStart, SliceStop, Forward, Reading, Touching;
    var first := FirstRun(marks, m);
    if i == first {
      NoneTouch();
    } else {
      TouchSteps(marks, m, i - 1);
      ReadSteps(marks, m, i - 1, None);
      var s, from := ReadTo(marks, m, first, i - 1, None), From(marks, m, first, i - 1);
      ReadingParts(marks, m, s, from - m.offset, None);
      ReadToOn(marks, m, first, i, None);
      TakeTouches(s, SliceStart(marks[i - 1], from), SliceStop(marks[i - 1], from, marks[i].at), marks[i].at - from);
    }
  }

  lemma NoneTouch()
    ensures Touching([])
  {
  }

  /** WITH NO LINES OF ITS OWN a read leaves no source out between its first place and its last. */
  lemma ReadTouches(marks: seq<Mark>, m: Map, length: int)
    requires Readable(marks, m) && length > 0
    ensures Touching(ReadAll(marks, m, length, None))
  {
    hide RunAt, Take, SliceStart, SliceStop, Forward, Reading, Touching;
    LastFits(marks, m, length);
    ReadLastIs(marks, m, length, None);
    var first, last := FirstRun(marks, m), LastRun(marks, m, length);
    var s, from := ReadTo(marks, m, first, last, None), From(marks, m, first, last);
    TouchSteps(marks, m, last);
    ReadSteps(marks, m, last, None);
    ReadingParts(marks, m, s, from - m.offset, None);
    TakeTouches(s, SliceStart(marks[last], from), SliceStop(marks[last], from, m.offset + length), m.offset + length - from);
  }

  /** Source byte `b` lies in a place. */
  ghost predicate Covered(places: seq<Piece>, b: int)
  {
    exists p :: 0 <= p < |places| && places[p].start <= b < places[p].end
  }

  /** Every byte of the own lines before `upto`, and every byte of the first `line` of them, lies in a place. */
  ghost predicate Covers(places: seq<Piece>, lines: seq<Piece>, line: nat, upto: int)
    requires line <= |lines|
  {
    && LastUp(places)
    && forall l, b :: 0 <= l < |lines| && lines[l].start <= b < lines[l].end && (l < line || b < upto) ==> Covered(places, b)
  }

  ghost predicate LastUp(places: seq<Piece>)
  {
    places != [] ==> places[|places| - 1].start <= places[|places| - 1].end
  }

  lemma AddUp(places: seq<Piece>, start: int, end: int)
    requires LastUp(places)
    ensures LastUp(AddOwn(places, start, end))
  {
  }

  lemma AddCovers(places: seq<Piece>, start: int, end: int, b: int)
    requires LastUp(places) && (Covered(places, b) || start <= b < end)
    ensures Covered(AddOwn(places, start, end), b)
  {
    var more := AddOwn(places, start, end);
    if Covered(places, b) {
      var p :| 0 <= p < |places| && places[p].start <= b < places[p].end;
      assert more[p].start <= b < more[p].end;
    } else {
      var last := more[|more| - 1];
      assert last.start <= b < last.end;
    }
  }

  lemma {:induction false} PassCovers(places: seq<Piece>, line: nat, at: int, start: int, lines: seq<Piece>)
    requires Lined(lines) && line <= |lines| && Covers(places, lines, line, at)
    ensures var r := PassLines(places, line, at, start, lines);
            r.1 <= |lines| && Covers(r.0, lines, r.1, at) && (r.1 < |lines| ==> lines[r.1].end > start)
    decreases |lines| - line
  {
    hide AddOwn, Covered;
    if line < |lines| && lines[line].end <= start {
      var own := lines[line];
      var more := AddOwn(places, Max(at, own.start), own.end);
      AddUp(places, Max(at, own.start), own.end);
      forall l, b | 0 <= l < |lines| && lines[l].start <= b < lines[l].end && (l < line + 1 || b < at)
        ensures Covered(more, b)
      {
        AddCovers(places, Max(at, own.start), own.end, b);
      }
      PassCovers(more, line + 1, at, start, lines);
    }
  }

  lemma OwnCovers(s: State, start: int, lines: seq<Piece>)
    requires Lined(lines) && s.line <= |lines| && Covers(s.places, lines, s.line, s.at)
    ensures var t := OwnBefore(s, start, Some(lines));
            t.line <= |lines| && Covers(t.places, lines, t.line, Max(s.at, start)) && t.at == s.at
  {
    hide AddOwn, Covered, PassLines;
    PassCovers(s.places, s.line, s.at, start, lines);
    var (places, line) := PassLines(s.places, s.line, s.at, start, lines);
    if line < |lines| && lines[line].start <= start {
      var from := Max(s.at, lines[line].start);
      AddUp(places, from, start);
      forall l, b | 0 <= l < |lines| && lines[l].start <= b < lines[l].end && (l < line || b < Max(s.at, start))
        ensures Covered(AddOwn(places, from, start), b)
      {
        AddCovers(places, from, start, b);
      }
    }
  }

  lemma TakeCovers(s: State, start: int, stop: int, size: int, lines: seq<Piece>)
    requires Lined(lines) && s.line <= |lines| && Covers(s.places, lines, s.line, s.at) && start < stop
    requires s.places != [] ==> LastEnd(s.places) == s.at && s.places[|s.places| - 1].start <= start && s.places[|s.places| - 1].start < s.at
    requires s.places == [] ==> s.at <= start
    requires s.places != [] ==> s.places[|s.places| - 1].length > 0
    ensures var t := Take(s, start, stop, size, Some(lines));
            t.line <= |lines| && Covers(t.places, lines, t.line, t.at)
  {
    TakeIs(s, start, stop, size, Some(lines));
    if Joins(s.places, start, stop, size) {
      hide OwnBefore;
      var k := |s.places| - 1;
      var t := Take(s, start, stop, size, Some(lines));
      forall l, b | 0 <= l < |lines| && lines[l].start <= b < lines[l].end && (l < s.line || b < t.at)
        ensures Covered(t.places, b)
      {
        if Covered(s.places, b) {
          var p :| 0 <= p < |s.places| && s.places[p].start <= b < s.places[p].end;
          assert t.places[p].start <= b < t.places[p].end;
        } else {
          assert t.places[k].start <= b < t.places[k].end;
        }
      }
    } else {
      TakeCoversNew(s, start, stop, size, lines);
    }
  }

  lemma TakeCoversNew(s: State, start: int, stop: int, size: int, lines: seq<Piece>)
    requires Lined(lines) && s.line <= |lines| && Covers(s.places, lines, s.line, s.at) && start < stop && s.at <= start
    ensures var t := OwnBefore(s, start, Some(lines));
            t.line <= |lines| && Covers(t.places + [Piece(start, stop, size)], lines, t.line, stop)
  {
    hide OwnBefore;
    OwnCovers(s, start, lines);
    var t := OwnBefore(s, start, Some(lines));
    var more := t.places + [Piece(start, stop, size)];
    forall l, b | 0 <= l < |lines| && lines[l].start <= b < lines[l].end && (l < t.line || b < stop)
      ensures Covered(more, b)
    {
      if l < t.line || b < start {
        assert Covered(t.places, b);
        var p :| 0 <= p < |t.places| && t.places[p].start <= b < t.places[p].end;
        assert more[p].start <= b < more[p].end;
      } else {
        assert more[|t.places|].start <= b < more[|t.places|].end;
      }
    }
  }

  lemma {:induction false} CloseCovers(s: State, lines: seq<Piece>)
    requires Lined(lines) && s.line <= |lines| && Covers(s.places, lines, s.line, s.at)
    ensures Covers(Close(s, Some(lines)), lines, |lines|, s.at)
    decreases |lines| - s.line
  {
    hide AddOwn, Covered;
    if s.line < |lines| {
      var own := lines[s.line];
      var more := AddOwn(s.places, Max(s.at, own.start), own.end);
      AddUp(s.places, Max(s.at, own.start), own.end);
      forall l, b | 0 <= l < |lines| && lines[l].start <= b < lines[l].end && (l < s.line + 1 || b < s.at)
        ensures Covered(more, b)
      {
        AddCovers(s.places, Max(s.at, own.start), own.end, b);
      }
      CloseCovers(State(more, s.line + 1, s.at), lines);
    }
  }

  lemma {:induction false} CoverSteps(marks: seq<Mark>, m: Map, i: nat, lines: seq<Piece>)
    requires Readable(marks, m) && Lined(lines) && FirstRun(marks, m) <= i < m.first + m.count
    ensures var s := ReadTo(marks, m, FirstRun(marks, m), i, Some(lines));
            s.line <= |lines| && Covers(s.places, lines, s.line, s.at)
    decreases i
  {
    hide *;
    ReadableParts(marks, m);
    LinesUp(lines);
    var first := FirstRun(marks, m);
    if i == first {
      StartIs(marks, m, first, Some(lines));
      NoneCovers(lines);
    } else {
      CoverSteps(marks, m, i - 1, lines);
      ReadSteps(marks, m, i - 1, Some(lines));
      var s, from := ReadTo(marks, m, first, i - 1, Some(lines)), From(marks, m, first, i - 1);
      ReadingParts(marks, m, s, from - m.offset, Some(lines));
      RunsGrow(marks, m, i - 1);
      ForwardAt(marks, m, i);
      FromIs(marks, m, first, i - 1);
      FirstFits(marks, m);
      SliceGrows(marks[i - 1], from, from, marks[i].at);
      ReadToOn(marks, m, first, i, Some(lines));
      TakeCovers(s, SliceStart(marks[i - 1], from), SliceStop(marks[i - 1], from, marks[i].at), marks[i].at - from, lines);
    }
  }

  lemma LinesUp(lines: seq<Piece>)
    requires Lined(lines)
    ensures LinedUp(Some(lines), 0)
  {
  }

  lemma NoneCovers(lines: seq<Piece>)
    requires Lined(lines)
    ensures Covers([], lines, 0, 0)
  {
  }

  /** NO OWN SOURCE IS LEFT OUT: each byte of the node's own lines lies in a place, of its content or of none. */
  lemma ReadCovers(marks: seq<Mark>, m: Map, length: int, lines: seq<Piece>)
    requires Readable(marks, m) && Lined(lines) && length > 0
    ensures forall l, b :: 0 <= l < |lines| && lines[l].start <= b < lines[l].end ==>
              Covered(ReadAll(marks, m, length, Some(lines)), b)
  {
    hide *;
    ReadableParts(marks, m);
    LinesUp(lines);
    LastFits(marks, m, length);
    var first, last := FirstRun(marks, m), LastRun(marks, m, length);
    CoverSteps(marks, m, last, lines);
    ReadSteps(marks, m, last, Some(lines));
    var s, from := ReadTo(marks, m, first, last, Some(lines)), From(marks, m, first, last);
    ReadingParts(marks, m, s, from - m.offset, Some(lines));
    ReadLastIs(marks, m, length, Some(lines));
    StepOf(marks, m, last);
    SliceGrows(marks[last], from, from, m.offset + length);
    TakeCovers(s, SliceStart(marks[last], from), SliceStop(marks[last], from, m.offset + length), m.offset + length - from, lines);
    CloseCovers(ReadLast(marks, m, length, Some(lines)), lines);
    ReadAllIs(marks, m, length, Some(lines));
    AllCovered(ReadAll(marks, m, length, Some(lines)), lines, ReadLast(marks, m, length, Some(lines)).at);
  }

  lemma StepOf(marks: seq<Mark>, m: Map, i: nat)
    requires Runs(marks, m) && Forward(marks, m) && m.first <= i < m.first + m.count
    ensures marks[i].step >= 0 && marks[i].width >= 1
  {
  }

  lemma AllCovered(places: seq<Piece>, lines: seq<Piece>, upto: int)
    requires Covers(places, lines, |lines|, upto)
    ensures forall l, b :: 0 <= l < |lines| && lines[l].start <= b < lines[l].end ==> Covered(places, b)
  {
  }

  // ---------- A read gone on with ----------

  /** Where a read stood before its last run, the run numbered `mark` of its map. */
  datatype Kept = Kept(mark: nat, from: int, at: int, places: seq<Piece>)

  /** A kept read is where a read of the map now would stand at that run, if the run still begins where it did. */
  ghost predicate KeptReads(marks: seq<Mark>, m: Map, k: Kept)
  {
    m.count > 0 && Runs(marks, m) && k.mark < m.count && marks[m.first + k.mark].at == k.from ==>
      && FirstRun(marks, m) <= m.first + k.mark && k.from == From(marks, m, FirstRun(marks, m), m.first + k.mark)
      && ReadTo(marks, m, FirstRun(marks, m), m.first + k.mark, None) == State(k.places, 0, k.at)
  }

  lemma SameRun(was: seq<Mark>, n: Map, marks: seq<Mark>, m: Map, i: nat, k: nat)
    requires In(was, n) && In(marks, m) && k < i <= n.count && i <= m.count
    requires was[n.first..n.first + i] == marks[m.first..m.first + i]
    ensures was[n.first + k] == marks[m.first + k]
  {
    assert was[n.first + k] == was[n.first..n.first + i][k] == marks[m.first..m.first + i][k] == marks[m.first + k];
  }

  /** RUNS THAT ARE AS THEY WERE READ AS THEY DID: a read kept of a map is one of any map whose runs up to it
      are the same, wherever in the vector they are now and whatever runs follow. */
  lemma {:induction false} ReadToSame(was: seq<Mark>, n: Map, marks: seq<Mark>, m: Map, i: nat, lines: Option<seq<Piece>>)
    requires Runs(was, n) && Runs(marks, m) && m.offset == n.offset
    requires FirstRun(was, n) - n.first <= i < n.count && i < m.count && FirstRun(marks, m) - m.first == FirstRun(was, n) - n.first
    requires was[n.first..n.first + i] == marks[m.first..m.first + i] && was[n.first + i].at == marks[m.first + i].at
    ensures ReadTo(marks, m, FirstRun(marks, m), m.first + i, lines) == ReadTo(was, n, FirstRun(was, n), n.first + i, lines)
    decreases i
  {
    hide Take, RunAt, SliceStart, SliceStop, FirstRun, From;
    if i > FirstRun(was, n) - n.first {
      SameRun(was, n, marks, m, i, i - 1);
      assert was[n.first..n.first + (i - 1)] == was[n.first..n.first + i][..i - 1];
      assert marks[m.first..m.first + (i - 1)] == marks[m.first..m.first + i][..i - 1];
      ReadToSame(was, n, marks, m, i - 1, lines);
      ReadToOn(was, n, FirstRun(was, n), n.first + i, lines);
      ReadToOn(marks, m, FirstRun(marks, m), m.first + i, lines);
      FromIs(was, n, FirstRun(was, n), n.first + i - 1);
      FromIs(marks, m, FirstRun(marks, m), m.first + i - 1);
    }
  }

  /** The first byte's run of a map is told by its runs up to one past the byte. */
  lemma FirstSame(was: seq<Mark>, n: Map, marks: seq<Mark>, m: Map, i: nat)
    requires Runs(was, n) && Runs(marks, m) && m.offset == n.offset && was[n.first].at <= n.offset
    requires FirstRun(was, n) - n.first <= i < n.count && i < m.count
    requires was[n.first..n.first + i] == marks[m.first..m.first + i] && was[n.first + i].at == marks[m.first + i].at
    requires FirstRun(was, n) - n.first == i ==> i + 1 == m.count || marks[m.first + i + 1].at > m.offset
    ensures FirstRun(marks, m) - m.first == FirstRun(was, n) - n.first
  {
    hide RunAt;
    RunFits(was, n.first, n.count, n.offset);
    var f := FirstRun(was, n) - n.first;
    forall k | m.first + f < k < m.first + m.count
      ensures marks[k].at > m.offset
    {
      if k <= m.first + i {
        SameAt(was, n, marks, m, i, k - m.first);
      } else {
        SameAt(was, n, marks, m, i, i);
      }
    }
    SameAt(was, n, marks, m, i, f);
    RunIs(marks, m.first, m.count, m.offset, m.first + f);
  }

  lemma SameAt(was: seq<Mark>, n: Map, marks: seq<Mark>, m: Map, i: nat, k: nat)
    requires In(was, n) && In(marks, m) && k <= i < n.count && i < m.count
    requires was[n.first..n.first + i] == marks[m.first..m.first + i] && was[n.first + i].at == marks[m.first + i].at
    ensures was[n.first + k].at == marks[m.first + k].at
  {
    if k < i {
      SameRun(was, n, marks, m, i, k);
    }
  }

  /** RESUMING IS READING FROM THE START: what a content's read kept is still what a read of it keeps once the
      content has grown, so a read that goes on from it gives the places a read from the start does. */
  lemma KeptStays(was: seq<Mark>, n: Map, marks: seq<Mark>, m: Map, k: Kept)
    requires Runs(was, n) && Runs(marks, m) && m.offset == n.offset && was[n.first].at <= n.offset
    requires KeptReads(was, n, k) && k.mark < n.count && was[n.first + k.mark].at == k.from
    requires k.mark < m.count ==> was[n.first..n.first + k.mark] == marks[m.first..m.first + k.mark]
    ensures KeptReads(marks, m, k)
  {
    hide RunAt, ReadTo, FirstRun;
    if k.mark < m.count && marks[m.first + k.mark].at == k.from {
      FirstFits(was, n);
      if k.mark + 1 < m.count {
        RunsGrow(marks, m, m.first + k.mark);
      }
      FirstSame(was, n, marks, m, k.mark);
      ReadToSame(was, n, marks, m, k.mark, None);
    }
  }

  // ---------- The read ----------

  /** The own source before a slice that starts at `start`. */
  method PutOwn(s: State, start: int, lines: Option<seq<Piece>>) returns (t: State)
    requires lines.Some? ==> s.line <= |lines.value|
    ensures t == OwnBefore(s, start, lines)
    ensures |t.places| <= |s.places| + 1 + t.line - s.line && (if lines.Some? then t.line <= |lines.value| else t.line == s.line)
  {
    t := s;
    match lines
    case None =>
      if s.places != [] {
        t := t.(places := AddOwn(t.places, s.at, start));
      }
    case Some(ls) =>
      PassStays(s.places, s.line, s.at, start, ls);
      while t.line < |ls| && ls[t.line].end <= start
        invariant s.line <= t.line <= |ls| && t.at == s.at && |t.places| <= |s.places| + t.line - s.line
        invariant PassLines(t.places, t.line, s.at, start, ls) == PassLines(s.places, s.line, s.at, start, ls)
        decreases |ls| - t.line
      {
        var own := ls[t.line];
        t := State(AddOwn(t.places, Max(s.at, own.start), own.end), t.line + 1, s.at);
      }
      if t.line < |ls| && ls[t.line].start <= start {
        t := t.(places := AddOwn(t.places, Max(s.at, ls[t.line].start), start));
      }
  }

  /** One slice read. */
  method ReadSlice(s: State, start: int, stop: int, size: int, lines: Option<seq<Piece>>) returns (t: State)
    requires lines.Some? ==> s.line <= |lines.value|
    ensures t == Take(s, start, stop, size, lines)
    ensures |t.places| <= |s.places| + 2 + t.line - s.line && (if lines.Some? then t.line <= |lines.value| else t.line == s.line)
  {
    var previous := if s.places != [] && s.places[|s.places| - 1].length != 0 then Some(s.places[|s.places| - 1]) else None;
    var continues := previous.Some? && previous.value.end == start && stop - start == size
                     && previous.value.end - previous.value.start == previous.value.length;
    if continues || (previous.Some? && start < previous.value.end) {
      var piece := previous.value.(end := if stop > previous.value.end then stop else previous.value.end,
                                   length := previous.value.length + size);
      return State(s.places[|s.places| - 1 := piece], s.line, piece.end);
    }
    t := PutOwn(s, start, lines);
    t := State(t.places + [Piece(start, stop, size)], t.line, stop);
  }

  lemma FirstIs(marks: seq<Mark>, m: Map)
    requires In(marks, m) && m.count > 0
    ensures FirstRun(marks, m) == RunAt(marks, m.first, m.count, m.offset)
  {
  }

  lemma StartIs(marks: seq<Mark>, m: Map, first: nat, lines: Option<seq<Piece>>)
    requires first < |marks|
    ensures ReadTo(marks, m, first, first, lines) == State([], 0, 0) && From(marks, m, first, first) == m.offset
  {
  }

  lemma ResumeIs(marks: seq<Mark>, m: Map, k: Kept)
    requires Runs(marks, m) && KeptReads(marks, m, k) && k.mark < m.count && marks[m.first + k.mark].at == k.from
    ensures FirstRun(marks, m) <= m.first + k.mark && k.from == From(marks, m, FirstRun(marks, m), m.first + k.mark)
    ensures ReadTo(marks, m, FirstRun(marks, m), m.first + k.mark, None) == State(k.places, 0, k.at)
  {
  }

  /** A run that still begins where it did is one of those a longer or shorter content is read through. */
  lemma ResumeFits(marks: seq<Mark>, m: Map, length: int, first: nat, last: nat, mark: nat, from: int)
    requires Runs(marks, m) && marks[m.first].at <= m.offset && length > 0
    requires first == FirstRun(marks, m) && last == LastRun(marks, m, length) && first <= mark < m.first + m.count
    requires from == From(marks, m, first, mark) == marks[mark].at
    ensures from < m.offset + length <==> mark <= last
  {
    LastFits(marks, m, length);
  }

  lemma StepFits(marks: seq<Mark>, m: Map, length: int, first: nat, last: nat, mark: nat)
    requires Runs(marks, m) && marks[m.first].at <= m.offset && length > 0
    requires first == FirstRun(marks, m) && last == LastRun(marks, m, length) && first <= mark <= last
    ensures mark < m.first + m.count <= |marks|
    ensures mark < last ==> marks[mark + 1].at < m.offset + length && mark + 1 < m.first + m.count
    ensures mark == last && mark + 1 < m.first + m.count ==> marks[mark + 1].at >= m.offset + length
  {
    LastFits(marks, m, length);
  }

  lemma KeepIs(marks: seq<Mark>, m: Map, first: nat, mark: nat, from: int, s: State)
    requires Runs(marks, m) && first == FirstRun(marks, m) <= mark < m.first + m.count
    requires from == From(marks, m, first, mark) && s == ReadTo(marks, m, first, mark, None) && s.line == 0
    ensures KeptReads(marks, m, Kept(mark - m.first, from, s.at, s.places))
  {
  }

  lemma ReadLastIs(marks: seq<Mark>, m: Map, length: int, lines: Option<seq<Piece>>)
    requires Runs(marks, m) && marks[m.first].at <= m.offset && length > 0
    ensures FirstRun(marks, m) <= LastRun(marks, m, length)
    ensures var first, last, to := FirstRun(marks, m), LastRun(marks, m, length), m.offset + length;
            var s, from := ReadTo(marks, m, first, last, lines), From(marks, m, first, last);
            ReadLast(marks, m, length, lines) == Take(s, SliceStart(marks[last], from), SliceStop(marks[last], from, to), to - from, lines)
  {
    LastFits(marks, m, length);
  }

  lemma ReadAllIs(marks: seq<Mark>, m: Map, length: int, lines: Option<seq<Piece>>)
    requires Runs(marks, m) && marks[m.first].at <= m.offset && length > 0
    ensures ReadAll(marks, m, length, lines) == Close(ReadLast(marks, m, length, lines), lines)
  {
  }

  /** The own lines left. */
  method CloseLines(s: State, lines: Option<seq<Piece>>) returns (places: seq<Piece>)
    requires lines.Some? ==> s.line <= |lines.value|
    ensures places == Close(s, lines)
    ensures |places| <= |s.places| + if lines.Some? then |lines.value| - s.line else 0
  {
    var t := s;
    while lines.Some? && t.line < |lines.value|
      invariant lines.Some? ==> t.line <= |lines.value|
      invariant t.at == s.at && Close(t, lines) == Close(s, lines) && t.line >= s.line && |t.places| <= |s.places| + t.line - s.line
      decreases if lines.Some? then |lines.value| - t.line else 0
    {
      var own := lines.value[t.line];
      t := State(AddOwn(t.places, Max(t.at, own.start), own.end), t.line + 1, t.at);
    }
    places := t.places;
  }

  /** A read goes on from what was kept of a longer content: its last run begins at or past the end of this. */
  ghost predicate Shrank(marks: seq<Mark>, m: Map, length: int, lines: Option<seq<Piece>>, kept: Option<Kept>)
  {
    && lines == None && kept.Some? && In(marks, m) && kept.value.mark < m.count
    && marks[m.first + kept.value.mark].at == kept.value.from && m.offset + length <= kept.value.from
  }

  /** THEN IT READS NOTHING MORE, and the kept places are this content's exactly when it ends where that run begins. */
  lemma ShrankRead(marks: seq<Mark>, m: Map, length: int, k: Kept)
    requires Readable(marks, m) && KeptReads(marks, m, k) && length > 0 && Shrank(marks, m, length, None, Some(k))
    ensures k.places == ReadAll(marks, m, length, None) <==> k.from == m.offset + length
  {
    hide *;
    ReadableParts(marks, m);
    ShrankParts(marks, m, length, k);
    ResumeIs(marks, m, k);
    var first, mark := FirstRun(marks, m), m.first + k.mark;
    KeptPast(marks, m, first, mark, k.from);
    NoLines();
    ReadSteps(marks, m, mark, None);
    ReadingParts(marks, m, ReadTo(marks, m, first, mark, None), From(marks, m, first, mark) - m.offset, None);
    PlacedSum(marks, m, k.places, k.from - m.offset);
    ReadPlaces(marks, m, length, None);
    PlacedSum(marks, m, ReadAll(marks, m, length, None), length);
    if k.from == m.offset + length {
      LastBefore(marks, m, length, mark);
      ReadToOn(marks, m, first, mark, None);
      ReadLastIs(marks, m, length, None);
      FromIs(marks, m, first, mark - 1);
      ReadAllIs(marks, m, length, None);
      CloseNone(ReadLast(marks, m, length, None));
    }
  }

  lemma NoLines()
    ensures LinedUp(None, 0)
  {
  }

  lemma CloseNone(s: State)
    ensures Close(s, None) == s.places
  {
  }

  lemma ShrankParts(marks: seq<Mark>, m: Map, length: int, k: Kept)
    requires Shrank(marks, m, length, None, Some(k))
    ensures k.mark < m.count && m.first + m.count <= |marks| && marks[m.first + k.mark].at == k.from && m.offset + length <= k.from
  {
  }

  lemma KeptPast(marks: seq<Mark>, m: Map, first: nat, mark: nat, from: int)
    requires mark < |marks| && from == From(marks, m, first, mark) && from > m.offset
    ensures mark > first
  {
  }

  /** The run before one that begins where a content ends is its last. */
  lemma LastBefore(marks: seq<Mark>, m: Map, length: int, mark: nat)
    requires Runs(marks, m) && length > 0 && m.first < mark < m.first + m.count && marks[mark].at == m.offset + length
    requires marks[m.first].at <= m.offset
    ensures LastRun(marks, m, length) == mark - 1
  {
    hide RunAt;
    RunIs(marks, m.first, m.count, m.offset + length - 1, mark - 1);
  }

  /** The places of the `length` content bytes of `m`, gone on with from a kept read when there is one to go on from,
      and where the read stood before its last run when it is `settled`; none when storage cannot be had. No more
      places are written than storage was taken for. */
  method ReadContent(content: ContentMarks, m: Map, length: int, lines: Option<seq<Piece>>, settled: bool, kept: Option<Kept>,
                     granted: bool)
    returns (places: Option<seq<Piece>>, keeps: Option<Kept>)
    requires m.count > 0 ==> Runs(content.marks, m) && content.marks[m.first].at <= m.offset
    requires kept.Some? ==> settled && KeptReads(content.marks, m, kept.value)
    ensures length <= 0 || m.count == 0 ==> places == None && keeps == kept
    ensures places.Some? ==>
              && length > 0 && m.count > 0
              && places.value == if Shrank(content.marks, m, length, lines, kept) then kept.value.places
                                 else ReadAll(content.marks, m, length, lines)
    ensures granted && length > 0 && m.count > 0 ==> places.Some?
    ensures !settled || lines.Some? ==> keeps == kept
    ensures keeps.Some? ==> KeptReads(content.marks, m, keeps.value)
    ensures places.Some? && settled && lines == None && !Shrank(content.marks, m, length, lines, kept) ==>
              && keeps.Some? && keeps.value.mark == LastRun(content.marks, m, length) - m.first
              && keeps.value.from == From(content.marks, m, FirstRun(content.marks, m), m.first + keeps.value.mark)
  {
    hide ReadTo, RunAt, FirstRun, LastRun, ReadAll, KeptReads, From, At;
    places, keeps := None, kept;
    if length <= 0 || m.count <= 0 {
      return;
    }
    var mark, _ := content.MarkNear(m, m.offset, m.first);
    var past := m.first + m.count;
    ghost var marks, first := content.marks, FirstRun(content.marks, m);
    FirstIs(marks, m);
    var lineCount := if lines.Some? then |lines.value| else 0;
    var resume := if lines == None && kept.Some? && kept.value.mark < m.count
                     && content.marks[m.first + kept.value.mark].at == kept.value.from
                  then kept else None;
    var size := (past - (if resume.Some? then m.first + resume.value.mark else mark)) * 2 + lineCount + 1
                + if resume.Some? then |resume.value.places| else 0;
    var had := HasStorage(granted);
    if !had {
      return;
    }
    var s, from := State([], 0, 0), m.offset;
    StartIs(marks, m, first, lines);
    LastFits(marks, m, length);
    if resume.Some? {
      mark, from := m.first + resume.value.mark, resume.value.from;
      s := State(resume.value.places, 0, resume.value.at);
      if from >= m.offset + length {
        return Some(s.places), keeps;
      }
      ResumeIs(marks, m, resume.value);
      ResumeFits(marks, m, length, first, LastRun(marks, m, length), mark, from);
    }
    places, keeps := ReadOn(content, m, length, lines, settled, kept, granted, mark, from, s, size);
  }

  /** The read from run `mark` on. */
  method ReadOn(content: ContentMarks, m: Map, length: int, lines: Option<seq<Piece>>, settled: bool, kept: Option<Kept>,
                granted: bool, begin: nat, start: int, held: State, size: int)
    returns (places: Option<seq<Piece>>, keeps: Option<Kept>)
    requires Runs(content.marks, m) && content.marks[m.first].at <= m.offset && length > 0
    requires FirstRun(content.marks, m) <= begin <= LastRun(content.marks, m, length)
    requires start == From(content.marks, m, FirstRun(content.marks, m), begin)
    requires held == ReadTo(content.marks, m, FirstRun(content.marks, m), begin, lines) && held.line == 0
    requires |held.places| + 2 * (m.first + m.count - begin) + (if lines.Some? then |lines.value| else 0) < size
    requires kept.Some? ==> KeptReads(content.marks, m, kept.value)
    ensures places.Some? ==> places.value == ReadAll(content.marks, m, length, lines)
    ensures (granted ==> places.Some?) && (!settled || lines.Some? ==> keeps == kept)
    ensures keeps.Some? ==> KeptReads(content.marks, m, keeps.value)
    ensures places.Some? && settled && lines == None ==>
              && keeps.Some? && keeps.value.mark == LastRun(content.marks, m, length) - m.first
              && keeps.value.from == From(content.marks, m, FirstRun(content.marks, m), m.first + keeps.value.mark)
  {
    hide ReadTo, RunAt, FirstRun, LastRun, Take, OwnBefore, Close, SliceStart, SliceStop, ReadLast, ReadAll, KeptReads, From, At;
    keeps := kept;
    var end, past := m.offset + length, m.first + m.count;
    ghost var marks, first, last := content.marks, FirstRun(content.marks, m), LastRun(content.marks, m, length);
    LastFits(marks, m, length);
    var mark: nat, from, s := begin, start, held;
    StartsBefore(marks, m, length, begin);
    while from < end
      invariant begin <= mark <= past && first <= begin && (from < end <==> mark <= last) && last < past
      invariant mark <= last ==> from == From(marks, m, first, mark) && s == ReadTo(marks, m, first, mark, lines)
      invariant mark > last ==> mark == last + 1 && from == end && s == ReadLast(marks, m, length, lines)
      invariant lines.Some? ==> s.line <= |lines.value|
      invariant lines == None ==> s.line == 0
      invariant |s.places| <= |held.places| + 2 * (mark - begin) + s.line
      invariant !settled || lines.Some? ==> keeps == kept
      invariant keeps == kept || (keeps.Some? && KeptReads(marks, m, keeps.value))
      invariant mark > last && settled && lines == None ==>
                  keeps.Some? && keeps.value.mark == last - m.first && keeps.value.from == From(marks, m, first, last)
      decreases past - mark
    {
      StepFits(marks, m, length, first, last, mark);
      var run := content.marks[mark];
      var to := if mark + 1 < past && content.marks[mark + 1].at < end then content.marks[mark + 1].at else end;
      if settled && lines == None && to == end {
        var had := HasStorage(granted);
        if !had {
          return None, keeps;
        }
        keeps := Some(Kept(mark - m.first, from, s.at, s.places));
        KeepIs(marks, m, first, mark, from, s);
      }
      s := ReadSlice(s, SliceStart(run, from), SliceStop(run, from, to), to - from, lines);
      if mark < last {
        ReadToOn(marks, m, first, mark + 1, lines);
      } else {
        ReadLastIs(marks, m, length, lines);
      }
      FromIs(marks, m, first, mark + 1 - if mark < last then 0 else 1);
      from := to;
      mark := mark + 1;
      assert |s.places| <= size;
    }
    var all := CloseLines(s, lines);
    assert |all| <= size;
    ReadAllIs(marks, m, length, lines);
    places := Some(all);
  }

  /** A run up to a content's last begins before its end. */
  lemma StartsBefore(marks: seq<Mark>, m: Map, length: int, mark: nat)
    requires Runs(marks, m) && marks[m.first].at <= m.offset && length > 0
    requires FirstRun(marks, m) <= mark <= LastRun(marks, m, length)
    ensures From(marks, m, FirstRun(marks, m), mark) < m.offset + length
  {
    LastFits(marks, m, length);
  }
}
