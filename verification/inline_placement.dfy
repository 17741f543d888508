/** Inline nodes placed on their owner's map, through the run the last placement ended in. */
module InlinePlacement {
  import opened ContentMaps
  import opened Basics

  /** A placement's frame: the run the cursor is on, read into fields. */
  class InlineFrame {
    const content: ContentMarks
    const owner: Map
    var cursor: nat
    var mapped: bool
    var runStart: int
    var runEnd: int
    var line: int
    var source: int
    var step: int
    var width: int

    /** The cursor is on a run of the owner, and the frame holds that run. */
    ghost predicate Valid()
      reads this, content
    {
      && mapped == (owner.count > 0)
      && (mapped ==>
            && Runs(content.marks, owner) && owner.first <= cursor < owner.first + owner.count
            && var mark := content.marks[cursor];
            && runStart == mark.at && line == mark.line && source == mark.source && step == mark.step && width == mark.width
            && runEnd == if cursor + 1 < owner.first + owner.count then content.marks[cursor + 1].at else INT32_MAX)
    }

    constructor (content: ContentMarks, owner: Map)
      requires owner.count > 0 ==> Runs(content.marks, owner)
      ensures Valid() && this.content == content && this.owner == owner
    {
      this.content, this.owner, cursor := content, owner, owner.first;
      mapped, runStart, runEnd, line, source, step, width := false, 0, 0, 0, 0, 0, 0;
      new;
      Seat();
    }

    /** The cursor's run read into the frame. */
    method Seat()
      requires owner.count > 0 ==> Runs(content.marks, owner) && owner.first <= cursor < owner.first + owner.count
      modifies this
      ensures Valid() && cursor == old(cursor)
    {
      mapped := owner.count > 0;
      if !mapped {
        return;
      }
      var last := owner.first + owner.count - 1;
      var mark := content.marks[cursor];
      runStart := mark.at;
      runEnd := if cursor < last then content.marks[cursor + 1].at else INT32_MAX;
      line, source, step, width := mark.line, mark.source, mark.step, mark.width;
    }

    /** The extent of content bytes `from` to `to`, its ends found each on its own, and the runs they lie in.
        THE FRAME ANSWERS AS A LOOKUP DOES. */
    method Place(from: int, to: int) returns (span: Span)
      requires Valid()
      modifies this
      ensures Valid()
      ensures !mapped ==> span == NO_SPAN
      ensures mapped ==> span.start == if from >= 0 then Some(At(content.marks, owner, from).start) else None
      ensures mapped ==> span.end == if to >= 0 then Some(At(content.marks, owner, to).end) else None
      ensures mapped && from >= 0 ==> span.first == RunAt(content.marks, owner.first, owner.count, from + owner.offset)
      ensures mapped && to >= 0 ==> span.last == RunAt(content.marks, owner.first, owner.count, to + owner.offset)
    {
      hide SpotOf, RunAt;
      if !mapped {
        return NO_SPAN;
      }
      var fromOffset, toOffset := from + owner.offset, to + owner.offset;
      if from < 0 || to < 0 || fromOffset < runStart || toOffset < runStart || fromOffset >= runEnd || toOffset >= runEnd {
        var probes;
        span, cursor, probes := content.Span(owner, from, to, cursor);
        Seat();
        return;
      }
      RunIs(content.marks, owner.first, owner.count, fromOffset, cursor);
      RunIs(content.marks, owner.first, owner.count, toOffset, cursor);
      SameSpot(content.marks[cursor], Frame(), fromOffset);
      SameSpot(content.marks[cursor], Frame(), toOffset);
      span := Span(Some(SpotOf(Frame(), fromOffset).start), Some(SpotOf(Frame(), toOffset).end), cursor, cursor);
    }

    /** The run the frame holds. */
    function Frame(): Mark
      reads this
    {
      Mark(runStart, line, source, width, step, 0)
    }

    /** The map of a Text placed on bytes `from` to `to` of `input`: a view of the owner's exactly when its literal is
        those bytes, one for one, and one run of the whole extent when it is not. */
    method MapText(literal: seq<Byte>, input: seq<Byte>, from: int, to: int, span: Span, granted: bool)
      returns (m: Map, ok: bool)
      requires |literal| == to - from + 1 ==> to < |input|
      requires Valid() && mapped && 0 <= from <= to && span.start.Some? && span.end.Some? && span.start.value < span.end.value
      requires span.first == RunAt(content.marks, owner.first, owner.count, from + owner.offset)
      requires span.last == RunAt(content.marks, owner.first, owner.count, to + owner.offset)
      modifies content
      ensures Valid()
      ensures forall n, x :: Runs(old(content.marks), n) ==> Kept(old(content.marks), content.marks, n, x)
      ensures IsCopy(literal, input, from, to) ==>
                ok && content.marks == old(content.marks) && m == Slice(content.marks, owner, from, |literal|)
      ensures IsCopy(literal, input, from, to) ==> Views(content.marks, m, owner, from, |literal|)
      ensures !IsCopy(literal, input, from, to) && ok ==>
                Runs(content.marks, m) && forall x :: 0 <= x ==> At(content.marks, m, x) == Spot(line, span.start.value, span.end.value, 0)
      ensures granted && |old(content.marks)| < INT32_MAX ==> ok
    {
      hide At, RunAt, Put, PutMap, Moved, MovedMap, Kept, Views;
      if |literal| == to - from + 1 && literal == input[from..to + 1] {
        ViewAnswers(content.marks, owner, from, to);
        m, ok := Map(span.first, span.last - span.first + 1, from + owner.offset), true;
        AllKept(content.marks);
      } else {
        ghost var was := content.marks;
        var mark := Mark(0, line, span.start.value, span.end.value - span.start.value, 0, 0);
        MostHolds(was, NONE, 1);
        MostOf(was, NONE, 1);
        m, ok := content.AppendMark(NONE, mark, granted);
        ExtentAnswers(was, mark);
      }
    }
  }

  /** A literal of just the bytes `from` to `to` of the input. */
  ghost predicate IsCopy(literal: seq<Byte>, input: seq<Byte>, from: int, to: int)
    requires 0 <= from
  {
    |literal| == to - from + 1 && to < |input| && forall k :: 0 <= k < |literal| ==> literal[k] == input[from + k]
  }

  lemma SameSpot(a: Mark, b: Mark, o: int)
    requires a.(indent := b.indent) == b
    ensures SpotOf(a, o).start == SpotOf(b, o).start && SpotOf(a, o).end == SpotOf(b, o).end
  {
  }

  lemma AllKept(marks: seq<Mark>)
    ensures forall n, x :: Runs(marks, n) ==> Kept(marks, marks, n, x)
  {
  }

  lemma ViewAnswers(marks: seq<Mark>, owner: Map, from: int, to: int)
    requires Runs(marks, owner) && from <= to
    ensures var o, p := from + owner.offset, to + owner.offset;
            var first, last := RunAt(marks, owner.first, owner.count, o), RunAt(marks, owner.first, owner.count, p);
            first <= last && Slice(marks, owner, from, to - from + 1) == Map(first, last - first + 1, o)
    ensures Views(marks, Slice(marks, owner, from, to - from + 1), owner, from, to - from + 1)
  {
    hide At, RunAt, Slice, Views;
    RunOrder(marks, owner.first, owner.count, from + owner.offset, to + owner.offset);
    SliceSpan(marks, owner, from, to - from + 1);
    SliceViews(marks, owner, from, to - from + 1);
  }

  lemma SliceSpan(marks: seq<Mark>, owner: Map, from: int, length: int)
    requires In(marks, owner) && owner.count > 0 && length > 0
    ensures var o := from + owner.offset;
            var first := RunAt(marks, owner.first, owner.count, o);
            var last := RunAt(marks, owner.first, owner.count, o + length - 1);
            first <= last && Slice(marks, owner, from, length) == Map(first, last - first + 1, o)
  {
    hide RunAt;
    RunOrder(marks, owner.first, owner.count, from + owner.offset, from + owner.offset + length - 1);
  }

  lemma PutIs(marks: seq<Mark>, mark: Mark)
    ensures Put(marks, NONE, mark) == marks + [mark]
  {
  }

  /** One run of no step, all a map has, answers the whole extent for every byte. */
  lemma ExtentAnswers(marks: seq<Mark>, mark: Mark)
    requires mark.at == 0 && mark.step == 0
    ensures Moved(marks, NONE) == marks && MovedMap(marks, NONE) == NONE && Put(marks, NONE, mark) == marks + [mark]
    ensures Runs(Put(marks, NONE, mark), PutMap(marks, NONE, mark))
    ensures forall x :: 0 <= x ==>
              At(Put(marks, NONE, mark), PutMap(marks, NONE, mark), x) == Spot(mark.line, mark.source, mark.source + mark.width, mark.indent)
    ensures forall n, x :: Runs(marks, n) ==> Kept(marks, marks, n, x) && Kept(marks, Put(marks, NONE, mark), n, x)
  {
    hide At, RunAt, Put, PutMap, Kept;
    PutIs(marks, mark);
    PutRuns(marks, NONE, mark);
    AllKept(marks);
    forall x | 0 <= x
      ensures At(Put(marks, NONE, mark), PutMap(marks, NONE, mark), x) == Spot(mark.line, mark.source, mark.source + mark.width, mark.indent)
    {
      PutAnswers(marks, NONE, mark, x);
    }
    forall n, x | Runs(marks, n)
      ensures Kept(marks, Put(marks, NONE, mark), n, x)
    {
      PutElsewhere(marks, NONE, mark, n, x);
    }
  }
}
