/** Where content bytes come from: maps made of runs, held as slices of one vector all maps share. */
module ContentMaps {
  import opened Basics

  /** A run: from content offset `at` on, each byte moves `step` source bytes on from `source`, and stands
      for `width` of them. */
  datatype Mark = Mark(at: int, line: int, source: int, width: int, step: int, indent: int)

  /** A map: `count` runs of the vector from `first` on, its own offset zero at `offset` of theirs. */
  datatype Map = Map(first: nat, count: nat, offset: int)

  /** What a content byte stands for: source bytes of one line. */
  datatype Spot = Spot(line: int, start: int, end: int, indent: int)

  const NONE := Map(0, 0, 0)

  // ---------- What a map denotes ----------

  ghost predicate In(marks: seq<Mark>, m: Map)
  {
    m.first + m.count <= |marks|
  }

  /** A map of some runs, in the order of their offsets. */
  ghost predicate Runs(marks: seq<Mark>, m: Map)
  {
    && In(marks, m) && m.count > 0
    && forall i, j :: m.first <= i < j < m.first + m.count ==> marks[i].at < marks[j].at
  }

  /** The run offset `o` lies in: the last at or before it, or the first of all. */
  ghost function RunAt(marks: seq<Mark>, first: nat, count: nat, o: int): (i: nat)
    requires count > 0 && first + count <= |marks|
    ensures first <= i < first + count
  {
    if count == 1 || marks[first + count - 1].at <= o then first + count - 1 else RunAt(marks, first, count - 1, o)
  }

  function SpotOf(mark: Mark, o: int): Spot
  {
    var start := mark.source + (o - mark.at) * mark.step;
    Spot(mark.line, start, start + mark.width, mark.indent)
  }

  /** What a map answers for its content byte `x`. */
  ghost function At(marks: seq<Mark>, m: Map, x: int): Spot
    requires In(marks, m) && m.count > 0
  {
    SpotOf(marks[RunAt(marks, m.first, m.count, x + m.offset)], x + m.offset)
  }

  /** What a map answers of its last run's own bytes, those from `end` on. */
  ghost function End(marks: seq<Mark>, m: Map): int
    requires In(marks, m) && m.count > 0
  {
    marks[m.first + m.count - 1].at
  }

  /** A run is the one an offset lies in when it is at or before it and the next is past it. */
  lemma {:induction false} RunIs(marks: seq<Mark>, first: nat, count: nat, o: int, i: nat)
    requires count > 0 && first + count <= |marks| && first <= i < first + count
    requires forall k :: i < k < first + count ==> marks[k].at > o
    requires i == first || marks[i].at <= o
    ensures RunAt(marks, first, count, o) == i
  {
    if i < first + count - 1 {
      RunIs(marks, first, count - 1, o, i);
    }
  }

  lemma {:induction false} RunFits(marks: seq<Mark>, first: nat, count: nat, o: int)
    requires count > 0 && first + count <= |marks|
    ensures var i := RunAt(marks, first, count, o);
            && (i == first || marks[i].at <= o)
            && (forall k :: i < k < first + count ==> marks[k].at > o)
  {
    if count > 1 && marks[first + count - 1].at > o {
      RunFits(marks, first, count - 1, o);
    }
  }

  /** A lookup reads only the runs of its map. */
  lemma {:induction false} RunReads(marks: seq<Mark>, more: seq<Mark>, first: nat, other: nat, count: nat, o: int)
    requires count > 0 && first + count <= |marks| && other + count <= |more|
    requires marks[first..first + count] == more[other..other + count]
    ensures RunAt(more, other, count, o) - other == RunAt(marks, first, count, o) - first
  {
    assert marks[first + count - 1] == marks[first..first + count][count - 1] == more[other + count - 1];
    if count > 1 {
      assert marks[first..first + (count - 1)] == marks[first..first + count][..count - 1];
      assert more[other..other + (count - 1)] == more[other..other + count][..count - 1];
      RunReads(marks, more, first, other, count - 1, o);
    }
  }

  /** THE SAME RUNS ELSEWHERE ANSWER THE SAME. */
  lemma SameRuns(marks: seq<Mark>, more: seq<Mark>, m: Map, first: nat, x: int)
    requires In(marks, m) && m.count > 0 && first + m.count <= |more|
    requires marks[m.first..m.first + m.count] == more[first..first + m.count]
    ensures At(more, m.(first := first), x) == At(marks, m, x)
  {
    var o := x + m.offset;
    RunReads(marks, more, m.first, first, m.count, o);
    var i := RunAt(marks, m.first, m.count, o) - m.first;
    assert marks[m.first + i] == marks[m.first..m.first + m.count][i] == more[first + i];
  }

  lemma RunOrder(marks: seq<Mark>, first: nat, count: nat, o: int, p: int)
    requires count > 0 && first + count <= |marks| && o <= p
    ensures RunAt(marks, first, count, o) <= RunAt(marks, first, count, p)
  {
    RunFits(marks, first, count, o);
    RunFits(marks, first, count, p);
  }

  /** The `length` bytes of `owner` from `from` on: the runs from that of the first to that of the last. */
  ghost function Slice(marks: seq<Mark>, owner: Map, from: int, length: int): (m: Map)
    requires In(marks, owner) && owner.count > 0 && length > 0
    ensures owner.first <= m.first && m.count > 0 && m.first + m.count <= owner.first + owner.count
  {
    var o := from + owner.offset;
    RunOrder(marks, owner.first, owner.count, o, o + length - 1);
    var first := RunAt(marks, owner.first, owner.count, o);
    Map(first, RunAt(marks, owner.first, owner.count, o + length - 1) - first + 1, o)
  }

  /** A SLICE ANSWERS AS THE MAP IT IS OF, byte by byte. */
  lemma SliceAnswers(marks: seq<Mark>, owner: Map, from: int, length: int, x: int)
    requires Runs(marks, owner) && 0 <= x < length
    ensures var m := Slice(marks, owner, from, length);
            Runs(marks, m) && At(marks, m, x) == At(marks, owner, from + x)
  {
    hide RunAt;
    var o := from + owner.offset;
    RunOrder(marks, owner.first, owner.count, o, o + x);
    RunOrder(marks, owner.first, owner.count, o + x, o + length - 1);
    RunFits(marks, owner.first, owner.count, o + x);
    var m := Slice(marks, owner, from, length);
    RunIs(marks, m.first, m.count, o + x, RunAt(marks, owner.first, owner.count, o + x));
    SubRuns(marks, owner, m);
  }

  /** Map `m` answers for each of `length` bytes as `owner` does from `from` on. */
  ghost predicate Views(marks: seq<Mark>, m: Map, owner: Map, from: int, length: int)
    requires Runs(marks, owner)
  {
    Runs(marks, m) && forall x :: 0 <= x < length ==> Agrees(marks, owner, from, marks, m, 0, x)
  }

  lemma SliceViews(marks: seq<Mark>, owner: Map, from: int, length: int)
    requires Runs(marks, owner) && length > 0
    ensures Views(marks, Slice(marks, owner, from, length), owner, from, length)
  {
    hide At, RunAt, Slice;
    SliceAnswers(marks, owner, from, length, 0);
    forall x | 0 <= x < length
      ensures Agrees(marks, owner, from, marks, Slice(marks, owner, from, length), 0, x)
    {
      SliceAnswers(marks, owner, from, length, x);
    }
  }

  lemma SubRuns(marks: seq<Mark>, owner: Map, m: Map)
    requires Runs(marks, owner) && owner.first <= m.first && m.count > 0 && m.first + m.count <= owner.first + owner.count
    ensures Runs(marks, m)
  {
  }

  // ---------- One run more ----------

  /** The vector after a run at content offset `mark.at` of the vector is put at the end of map `m`,
      whose runs are the vector's last. */
  ghost function Grown(marks: seq<Mark>, m: Map, mark: Mark): (r: seq<Mark>)
    requires In(marks, m)
  {
    if m.count > 0 && marks[|marks| - 1].at == mark.at then marks[|marks| - 1 := mark] else marks + [mark]
  }

  ghost predicate AtEnd(marks: seq<Mark>, m: Map)
  {
    In(marks, m) && (m.count > 0 ==> m.first + m.count == |marks|)
  }

  ghost function GrownMap(marks: seq<Mark>, m: Map, mark: Mark): Map
    requires AtEnd(marks, m)
  {
    if m.count == 0 then m.(first := |marks|, count := 1)
    else if marks[|marks| - 1].at == mark.at then m
    else m.(count := m.count + 1)
  }

  lemma GrownRuns(marks: seq<Mark>, m: Map, mark: Mark)
    requires AtEnd(marks, m) && (m.count > 0 ==> Runs(marks, m) && End(marks, m) <= mark.at)
    ensures var r, g := Grown(marks, m, mark), GrownMap(marks, m, mark);
            && Runs(r, g) && r[g.first + g.count - 1] == mark && g.first + g.count == |r| && End(r, g) == mark.at
            && g.offset == m.offset && (m.count > 0 ==> g.first == m.first && m.first + m.count <= |r|)
            && (forall i :: m.first <= i < m.first + m.count && marks[i].at < mark.at ==> r[i] == marks[i])
            && (m.count > 0 ==> g.count == m.count || g.count == m.count + 1)
  {
  }

  /** A RUN PUT AT A MAP'S END answers from its own offset on, and the map as it did before it. */
  lemma GrownAnswers(marks: seq<Mark>, m: Map, mark: Mark, x: int)
    requires AtEnd(marks, m) && (m.count > 0 ==> Runs(marks, m) && End(marks, m) <= mark.at)
    ensures Runs(Grown(marks, m, mark), GrownMap(marks, m, mark))
    ensures End(Grown(marks, m, mark), GrownMap(marks, m, mark)) == mark.at
    ensures x + m.offset >= mark.at || m.count == 0 ==>
              At(Grown(marks, m, mark), GrownMap(marks, m, mark), x) == SpotOf(mark, x + m.offset)
    ensures x + m.offset < mark.at && m.count > 0 && marks[m.first].at <= x + m.offset ==>
              At(Grown(marks, m, mark), GrownMap(marks, m, mark), x) == At(marks, m, x)
  {
    var r, g, o := Grown(marks, m, mark), GrownMap(marks, m, mark), x + m.offset;
    GrownRuns(marks, m, mark);
    if o >= mark.at || m.count == 0 {
      RunIs(r, g.first, g.count, o, g.first + g.count - 1);
    } else if marks[m.first].at <= o {
      var i := RunAt(marks, m.first, m.count, o);
      RunFits(marks, m.first, m.count, o);
      assert r[i] == marks[i];
      RunIs(r, g.first, g.count, o, i);
    }
  }

  /** Map `n` reads no run for its byte `x` that a run put at offset `at` at the end of `m` is written over. */
  ghost predicate Spared(marks: seq<Mark>, m: Map, at: int, n: Map, x: int)
  {
    Runs(marks, n) &&
      (|| n.first + n.count < |marks|
       || m.count == 0
       || m.first + m.count != |marks|
       || marks[|marks| - 1].at != at
       || marks[n.first].at <= x + n.offset < at)
  }

  /** Map `n` answers for byte `x` over `after` as it did over `before`. */
  ghost predicate Kept(before: seq<Mark>, after: seq<Mark>, n: Map, x: int)
    requires Runs(before, n)
  {
    Runs(after, n) && At(after, n, x) == At(before, n, x)
  }

  /** WHAT OTHER MAPS ANSWER STAYS: a map answers as it did for every byte before the last run's, and for
      every byte when the last run is none of its own or was not written over. */
  lemma GrownElsewhere(marks: seq<Mark>, m: Map, mark: Mark, n: Map, x: int)
    requires AtEnd(marks, m) && Spared(marks, m, mark.at, n, x)
    ensures Kept(marks, Grown(marks, m, mark), n, x)
  {
    var r, o := Grown(marks, m, mark), x + n.offset;
    var i := RunAt(marks, n.first, n.count, o);
    hide RunAt;
    RunFits(marks, n.first, n.count, o);
    assert forall k :: n.first <= k < n.first + n.count ==> r[k].at == marks[k].at;
    assert r[i] == marks[i];
    RunIs(r, n.first, n.count, o, i);
  }

  /** and any other byte of it answers what the new run does. */
  lemma GrownOver(marks: seq<Mark>, m: Map, mark: Mark, n: Map, x: int)
    requires AtEnd(marks, m) && Runs(marks, n) && !Spared(marks, m, mark.at, n, x) && marks[n.first].at <= x + n.offset
    ensures Runs(Grown(marks, m, mark), n) && At(Grown(marks, m, mark), n, x) == SpotOf(mark, x + n.offset)
  {
    var r := Grown(marks, m, mark);
    RunIs(r, n.first, n.count, x + n.offset, |r| - 1);
  }

  // ---------- A map moved to the end ----------

  ghost function Moved(marks: seq<Mark>, m: Map): (r: seq<Mark>)
    requires In(marks, m)
    ensures marks <= r
  {
    if m.count > 0 && m.first + m.count != |marks| then marks + marks[m.first..m.first + m.count] else marks
  }

  ghost function MovedMap(marks: seq<Mark>, m: Map): (r: Map)
    requires In(marks, m)
    ensures r.offset == m.offset && r.count == m.count
  {
    if m.count > 0 && m.first + m.count != |marks| then m.(first := |marks|) else m
  }

  /** A MAP MOVED TO THE END answers as it did, and so does every other. */
  lemma MovedAnswers(marks: seq<Mark>, m: Map, x: int)
    requires In(marks, m)
    ensures AtEnd(Moved(marks, m), MovedMap(marks, m))
    ensures m.count > 0 ==> At(Moved(marks, m), MovedMap(marks, m), x) == At(marks, m, x)
    ensures Runs(marks, m) ==>
              && Runs(Moved(marks, m), MovedMap(marks, m))
              && End(Moved(marks, m), MovedMap(marks, m)) == End(marks, m)
              && Moved(marks, m)[MovedMap(marks, m).first].at == marks[m.first].at
  {
    if m.count > 0 {
      SameRuns(marks, Moved(marks, m), m, MovedMap(marks, m).first, x);
    }
  }

  lemma MovedElsewhere(marks: seq<Mark>, m: Map, n: Map, x: int)
    requires In(marks, m) && Runs(marks, n)
    ensures Kept(marks, Moved(marks, m), n, x)
  {
    var r := Moved(marks, m);
    assert r[n.first..n.first + n.count] == marks[n.first..n.first + n.count];
    SameRuns(marks, r, n, n.first, x);
  }

  // ---------- A map moved and grown ----------

  ghost function Put(marks: seq<Mark>, m: Map, mark: Mark): seq<Mark>
    requires In(marks, m)
  {
    Grown(Moved(marks, m), MovedMap(marks, m), mark)
  }

  ghost function PutMap(marks: seq<Mark>, m: Map, mark: Mark): Map
    requires In(marks, m)
  {
    MovedAnswers(marks, m, 0);
    GrownMap(Moved(marks, m), MovedMap(marks, m), mark)
  }

  /** What a map may be given a run at offset `at` of its vector for. */
  ghost predicate Open(marks: seq<Mark>, m: Map, at: int)
  {
    In(marks, m) && (m.count > 0 ==> Runs(marks, m) && End(marks, m) <= at)
  }

  /** The most runs the vector comes to hold when `m` is given `runs` more: it moves to its end when it is not there. */
  ghost function Most(marks: seq<Mark>, m: Map, runs: nat): nat
  {
    |marks| + (if m.count > 0 && m.first + m.count != |marks| then m.count else 0) + runs
  }

  /** The vector may hold so many. */
  ghost predicate Roomy(marks: seq<Mark>, m: Map, runs: nat)
  {
    Most(marks, m, runs) <= INT32_MAX
  }

  lemma FewerRoomy(marks: seq<Mark>, m: Map, runs: nat, fewer: nat)
    requires fewer <= runs
    ensures Most(marks, m, fewer) <= Most(marks, m, runs) && (Roomy(marks, m, runs) ==> Roomy(marks, m, fewer))
  {
  }

  lemma RoomyNext(marks: seq<Mark>, m: Map, mark: Mark, runs: nat)
    requires In(marks, m) && runs > 0
    ensures Roomy(marks, m, runs) ==> Roomy(marks, m, 1) && Roomy(Put(marks, m, mark), PutMap(marks, m, mark), runs - 1)
    ensures Most(Put(marks, m, mark), PutMap(marks, m, mark), runs - 1) <= Most(marks, m, runs)
    ensures |Put(marks, m, mark)| <= Most(marks, m, runs) && |Moved(marks, m)| <= Most(marks, m, runs)
  {
  }

  lemma MostOf(marks: seq<Mark>, m: Map, runs: nat)
    ensures Most(marks, m, runs) == Most(marks, m, 0) + runs
    ensures m.count == 0 || m.first + m.count == |marks| ==> Most(marks, m, runs) == |marks| + runs
  {
  }

  lemma MostHolds(marks: seq<Mark>, m: Map, runs: nat)
    ensures |marks| <= Most(marks, m, runs) && (Roomy(marks, m, runs) <==> Most(marks, m, runs) <= INT32_MAX)
  {
  }

  lemma PutRuns(marks: seq<Mark>, m: Map, mark: Mark)
    requires Open(marks, m, mark.at)
    ensures var r, g := Put(marks, m, mark), PutMap(marks, m, mark);
            && Runs(r, g) && AtEnd(r, g) && End(r, g) == mark.at && g.offset == m.offset
            && r[g.first].at == (if m.count > 0 && (m.count > 1 || End(marks, m) < mark.at) then marks[m.first].at else mark.at)
  {
    MovedAnswers(marks, m, 0);
    GrownAnswers(Moved(marks, m), MovedMap(marks, m), mark, 0);
  }

  /** A RUN PUT AT A MAP'S END answers from its own offset on, and the map as it did before it. */
  lemma PutAnswers(marks: seq<Mark>, m: Map, mark: Mark, x: int)
    requires Open(marks, m, mark.at)
    ensures Runs(Put(marks, m, mark), PutMap(marks, m, mark))
    ensures x + m.offset >= mark.at || m.count == 0 ==>
              At(Put(marks, m, mark), PutMap(marks, m, mark), x) == SpotOf(mark, x + m.offset)
    ensures x + m.offset < mark.at && m.count > 0 && marks[m.first].at <= x + m.offset ==>
              At(Put(marks, m, mark), PutMap(marks, m, mark), x) == At(marks, m, x)
  {
    MovedAnswers(marks, m, x);
    GrownAnswers(Moved(marks, m), MovedMap(marks, m), mark, x);
  }

  lemma PutElsewhere(marks: seq<Mark>, m: Map, mark: Mark, n: Map, x: int)
    requires Open(marks, m, mark.at) && Spared(marks, m, mark.at, n, x)
    ensures Kept(marks, Put(marks, m, mark), n, x)
  {
    MovedAnswers(marks, m, x);
    MovedElsewhere(marks, m, n, x);
    GrownElsewhere(Moved(marks, m), MovedMap(marks, m), mark, n, x);
  }

  // ---------- Runs of one map put at the end of another ----------

  /** Run `mark` from offset `start` on, as a run at offset `at`. */
  function Recut(mark: Mark, start: int, at: int): Mark {
    mark.(at := at, source := mark.source + (start - mark.at) * mark.step)
  }

  lemma RecutAnswers(mark: Mark, start: int, at: int, o: int)
    ensures SpotOf(Recut(mark, start, at), at + o - start) == SpotOf(mark, o)
  {
    assert (start - mark.at) * mark.step + (o - start) * mark.step == (o - mark.at) * mark.step;
  }

  /** Where the bytes of run `i` begin, of those from `from` on. */
  function Start(mark: Mark, from: int): int {
    if mark.at < from then from else mark.at
  }

  /** How many of the bytes from `from` on lie in the runs before run `i` of a slice that ends with `last`. */
  ghost function Reach(marks: seq<Mark>, i: nat, last: nat, from: int, length: int): int
    requires last < |marks|
  {
    if i <= last then Start(marks[i], from) - from else length
  }

  /** Map `g` answers for `upto` bytes from `offset` on as `owner` did from `from` on. */
  ghost predicate Copied(was: seq<Mark>, owner: Map, from: int, marks: seq<Mark>, g: Map, offset: int, upto: int)
  {
    && Runs(was, owner)
    && (upto > 0 ==> Runs(marks, g))
    && forall x :: 0 <= x < upto ==> Agrees(was, owner, from, marks, g, offset, x)
  }

  /** Map `g` answers for byte `offset + x` as `owner` did for byte `from + x`. */
  ghost predicate Agrees(was: seq<Mark>, owner: Map, from: int, marks: seq<Mark>, g: Map, offset: int, x: int)
    requires Runs(was, owner) && Runs(marks, g)
  {
    At(marks, g, offset + x) == At(was, owner, from + x)
  }

  /** One run more of the slice put at the map's end. */
  lemma CopyStep(was: seq<Mark>, owner: Map, from: int, length: int, marks: seq<Mark>, g: Map, offset: int,
                 i: nat, first: nat, last: nat)
    requires Runs(was, owner) && length > 0 && was[owner.first].at <= from + owner.offset
    requires first == RunAt(was, owner.first, owner.count, from + owner.offset)
    requires last == RunAt(was, owner.first, owner.count, from + owner.offset + length - 1)
    requires first <= i <= last
    requires var reach := Reach(was, i, last, from + owner.offset, length);
             && Copied(was, owner, from, marks, g, offset, reach)
             && Open(marks, g, offset + g.offset + reach) && (i > first ==> g.count > 0 && marks[g.first].at <= offset + g.offset)
    ensures var o := from + owner.offset;
            var start := Start(was[i], o);
            var mark := Recut(was[i], start, offset + start - o + g.offset);
            Copied(was, owner, from, Put(marks, g, mark), PutMap(marks, g, mark), offset, Reach(was, i + 1, last, o, length))
  {
    hide RunAt, Put, PutMap, At, Agrees, Recut, SpotOf;
    var o := from + owner.offset;
    var start := Start(was[i], o);
    var mark := Recut(was[i], start, offset + start - o + g.offset);
    RecutAt(was[i], start, offset + start - o + g.offset);
    RunFits(was, owner.first, owner.count, o);
    RunFits(was, owner.first, owner.count, o + length - 1);
    PutAnswers(marks, g, mark, 0);
    forall x | 0 <= x < Reach(was, i + 1, last, o, length)
      ensures Agrees(was, owner, from, Put(marks, g, mark), PutMap(marks, g, mark), offset, x)
    {
      if x < start - o {
        CopyKept(was, owner, from, marks, g, offset, mark, x);
      } else {
        CopyNew(was, owner, from, length, marks, g, offset, i, last, mark, x);
      }
    }
  }

  lemma RecutAt(mark: Mark, start: int, at: int)
    ensures Recut(mark, start, at).at == at
  {
  }

  lemma CopyKept(was: seq<Mark>, owner: Map, from: int, marks: seq<Mark>, g: Map, offset: int, mark: Mark, x: int)
    requires Runs(was, owner) && Runs(marks, g) && Agrees(was, owner, from, marks, g, offset, x) && Open(marks, g, mark.at)
    requires marks[g.first].at <= offset + x + g.offset < mark.at
    ensures Runs(Put(marks, g, mark), PutMap(marks, g, mark))
    ensures Agrees(was, owner, from, Put(marks, g, mark), PutMap(marks, g, mark), offset, x)
  {
    hide RunAt, Put, PutMap, At;
    PutAnswers(marks, g, mark, offset + x);
  }

  lemma CopyNew(was: seq<Mark>, owner: Map, from: int, length: int, marks: seq<Mark>, g: Map, offset: int,
                i: nat, last: nat, mark: Mark, x: int)
    requires Runs(was, owner) && owner.first <= i <= last && Open(marks, g, mark.at) && 0 <= x < length
    requires last == RunAt(was, owner.first, owner.count, from + owner.offset + length - 1)
    requires var o := from + owner.offset;
             && mark == Recut(was[i], Start(was[i], o), offset + Start(was[i], o) - o + g.offset)
             && Start(was[i], o) - o <= x < Reach(was, i + 1, last, o, length)
    ensures Runs(Put(marks, g, mark), PutMap(marks, g, mark))
    ensures Agrees(was, owner, from, Put(marks, g, mark), PutMap(marks, g, mark), offset, x)
  {
    hide RunAt, Put, PutMap, At, Recut, SpotOf;
    var o := from + owner.offset;
    RunFits(was, owner.first, owner.count, o + length - 1);
    RunIs(was, owner.first, owner.count, o + x, i);
    AtRun(was, owner, from + x, i);
    RecutAt(was[i], Start(was[i], o), offset + Start(was[i], o) - o + g.offset);
    RecutAnswers(was[i], Start(was[i], o), mark.at, o + x);
    assert mark.at + (o + x) - Start(was[i], o) == offset + x + g.offset;
    PutAnswers(marks, g, mark, offset + x);
  }

  lemma AtRun(marks: seq<Mark>, m: Map, x: int, i: nat)
    requires In(marks, m) && m.count > 0 && RunAt(marks, m.first, m.count, x + m.offset) == i
    ensures At(marks, m, x) == SpotOf(marks[i], x + m.offset)
  {
  }

  /** Every map `m` grown at offset `at` leaves alone answers over `marks` as it did over `was`. */
  ghost predicate OthersKept(was: seq<Mark>, m: Map, at: int, marks: seq<Mark>)
  {
    forall n, x :: Spared(was, m, at, n, x) ==> Kept(was, marks, n, x)
  }

  /** The bytes of `m` before offset `at` answer over `marks` and `g` as they did over `was`. */
  ghost predicate FrontKept(was: seq<Mark>, m: Map, at: int, marks: seq<Mark>, g: Map)
    requires In(was, m)
  {
    m.count > 0 ==>
      && In(marks, g) && g.count > 0 && (marks[g.first].at <= was[m.first].at || at <= was[m.first].at)
      && forall x :: was[m.first].at <= x + m.offset < at ==> At(marks, g, x) == At(was, m, x)
  }

  lemma OthersStart(was: seq<Mark>, m: Map, at: int)
    ensures OthersKept(was, m, at, was)
  {
  }

  /** The first run put at a map's end, and any run after it. */
  lemma OthersFirst(was: seq<Mark>, m: Map, mark: Mark)
    requires Open(was, m, mark.at)
    ensures OthersKept(was, m, mark.at, Put(was, m, mark))
  {
    forall n, x | Spared(was, m, mark.at, n, x)
      ensures Kept(was, Put(was, m, mark), n, x)
    {
      PutElsewhere(was, m, mark, n, x);
    }
  }

  lemma OthersNext(was: seq<Mark>, m: Map, at: int, marks: seq<Mark>, g: Map, mark: Mark)
    requires OthersKept(was, m, at, marks) && Open(marks, g, mark.at) && (g.count > 0 ==> End(marks, g) < mark.at)
    ensures OthersKept(was, m, at, Put(marks, g, mark))
  {
    forall n, x | Spared(was, m, at, n, x)
      ensures Kept(was, Put(marks, g, mark), n, x)
    {
      assert Kept(was, marks, n, x);
      PutElsewhere(marks, g, mark, n, x);
    }
  }

  lemma OthersMoved(was: seq<Mark>, m: Map, at: int, marks: seq<Mark>, g: Map)
    requires OthersKept(was, m, at, marks) && In(marks, g)
    ensures OthersKept(was, m, at, Moved(marks, g))
  {
    forall n, x | Spared(was, m, at, n, x)
      ensures Kept(was, Moved(marks, g), n, x)
    {
      assert Kept(was, marks, n, x);
      MovedElsewhere(marks, g, n, x);
    }
  }

  lemma FrontFirst(was: seq<Mark>, m: Map, mark: Mark)
    requires Open(was, m, mark.at)
    ensures FrontKept(was, m, mark.at, Put(was, m, mark), PutMap(was, m, mark))
  {
    PutRuns(was, m, mark);
    forall x | m.count > 0 && was[m.first].at <= x + m.offset < mark.at
      ensures At(Put(was, m, mark), PutMap(was, m, mark), x) == At(was, m, x)
    {
      PutAnswers(was, m, mark, x);
    }
  }

  lemma FrontNext(was: seq<Mark>, m: Map, at: int, marks: seq<Mark>, g: Map, mark: Mark)
    requires Open(was, m, at) && FrontKept(was, m, at, marks, g) && Open(marks, g, mark.at) && at <= mark.at
    requires g.offset == m.offset
    ensures FrontKept(was, m, at, Put(marks, g, mark), PutMap(marks, g, mark))
  {
    PutRuns(marks, g, mark);
    forall x | m.count > 0 && was[m.first].at <= x + m.offset < at
      ensures At(Put(marks, g, mark), PutMap(marks, g, mark), x) == At(was, m, x)
    {
      PutAnswers(marks, g, mark, x);
    }
  }

  /** A run put at a map's end changes none before it but, at the same offset, the map's own last. */
  lemma PutKeeps(marks: seq<Mark>, m: Map, mark: Mark, k: nat)
    requires Open(marks, m, mark.at) && k < |marks|
    requires m.count == 0 || k != m.first + m.count - 1 || End(marks, m) < mark.at
    ensures |marks| <= |Put(marks, m, mark)| && Put(marks, m, mark)[k] == marks[k]
  {
  }

  /** Every byte of a run stands for one source byte at least. */
  ghost predicate AllWide(marks: seq<Mark>)
  {
    forall i :: 0 <= i < |marks| ==> marks[i].width >= 1
  }

  lemma PutWide(marks: seq<Mark>, m: Map, mark: Mark)
    requires In(marks, m) && AllWide(marks) && mark.width >= 1
    ensures AllWide(Put(marks, m, mark))
  {
  }

  /** Where a copy of a slice of `owner`, whose runs are `first` to `last`, to the end of `m` stands before run `i`. */
  ghost predicate Copying(was: seq<Mark>, owner: Map, m: Map, from: int, length: int, offset: int,
                          first: nat, last: nat, marks: seq<Mark>, g: Map, i: nat)
    requires Runs(was, owner) && Open(was, m, offset + m.offset) && first <= last < owner.first + owner.count
  {
    var at, reach := offset + m.offset, Reach(was, i, last, from + owner.offset, length);
    && AllWide(marks) && |was| <= |marks| && g.offset == m.offset
    && (forall k :: owner.first <= k < owner.first + owner.count ==> marks[k] == was[k])
    && (i <= first ==> marks == was && g == m)
    && Open(marks, g, at + reach)
    && (i > first ==> g.count > 0 && marks[g.first].at <= at && FrontKept(was, m, at, marks, g))
    && (first < i <= last ==> End(marks, g) < at + reach)
    && Copied(was, owner, from, marks, g, offset, reach)
    && OthersKept(was, m, at, marks)
    && Grew(was, m, marks, g, i > first)
  }

  /** No run but `m`'s last was written over. */
  ghost predicate Spares(was: seq<Mark>, m: Map, marks: seq<Mark>)
  {
    && |was| <= |marks|
    && (forall k :: 0 <= k < |was| && (m.count == 0 || k != m.first + m.count - 1) ==> marks[k] == was[k])
  }

  /** No run but `m`'s last was written over, and `g`, once it `started`, is at the end: where `m` was, when `m` was there. */
  ghost predicate Grew(was: seq<Mark>, m: Map, marks: seq<Mark>, g: Map, started: bool)
  {
    && Spares(was, m, marks)
    && (started ==>
          && AtEnd(marks, g) && g.count > 0
          && if m.count > 0 && m.first + m.count == |was| then g.first == m.first else g.first >= |was|)
  }

  lemma GrewOn(was: seq<Mark>, m: Map, marks: seq<Mark>, g: Map, mark: Mark, started: bool)
    requires Grew(was, m, marks, g, started) && Open(marks, g, mark.at)
    requires if started then End(marks, g) < mark.at else marks == was && g == m
    ensures Grew(was, m, Put(marks, g, mark), PutMap(marks, g, mark), true)
  {
    hide Put, PutMap;
    PutFirst(marks, g, mark);
    forall k | 0 <= k < |was| && (m.count == 0 || k != m.first + m.count - 1)
      ensures Put(marks, g, mark)[k] == was[k]
    {
      PutKeeps(marks, g, mark, k);
    }
    PutRuns(marks, g, mark);
  }

  lemma PutFirst(marks: seq<Mark>, m: Map, mark: Mark)
    requires In(marks, m)
    ensures PutMap(marks, m, mark).first == if m.count > 0 && m.first + m.count == |marks| then m.first else |marks|
    ensures PutMap(marks, m, mark).count > 0 && |marks| <= |Put(marks, m, mark)|
  {
  }

  /** The slice `first` to `last` of `owner` that holds `length` bytes from `from` on. */
  ghost predicate Sliced(was: seq<Mark>, owner: Map, from: int, length: int, first: nat, last: nat)
  {
    && Runs(was, owner) && length > 0 && was[owner.first].at <= from + owner.offset
    && first == RunAt(was, owner.first, owner.count, from + owner.offset)
    && last == RunAt(was, owner.first, owner.count, from + owner.offset + length - 1)
    && first <= last
  }

  /** The run that a copy to `m` may write over is none of the owner's. */
  ghost predicate Lone(was: seq<Mark>, owner: Map, m: Map, at: int)
  {
    m.count > 0 && owner.first <= m.first + m.count - 1 < owner.first + owner.count ==> In(was, m) && End(was, m) < at
  }

  lemma CopyStarts(was: seq<Mark>, owner: Map, m: Map, from: int, length: int, offset: int, first: nat, last: nat)
    requires Sliced(was, owner, from, length, first, last) && Open(was, m, offset + m.offset) && AllWide(was)
    ensures Copying(was, owner, m, from, length, offset, first, last, was, m, first)
  {
    RunFits(was, owner.first, owner.count, from + owner.offset);
  }

  ghost function Step(was: seq<Mark>, owner: Map, from: int, at: int, i: nat): Mark
    requires i < |was|
  {
    var o := from + owner.offset;
    Recut(was[i], Start(was[i], o), at + Start(was[i], o) - o)
  }

  /** A step of the copy. */
  lemma StepDone(was: seq<Mark>, owner: Map, m: Map, from: int, length: int, offset: int, first: nat, last: nat,
                 marks: seq<Mark>, g: Map, i: nat)
    requires Sliced(was, owner, from, length, first, last) && Open(was, m, offset + m.offset)
    requires Lone(was, owner, m, offset + m.offset) && first <= i <= last
    requires Copying(was, owner, m, from, length, offset, first, last, marks, g, i)
    ensures var mark := Step(was, owner, from, offset + m.offset, i);
            && mark.width >= 1 && Open(marks, g, mark.at)
            && Copying(was, owner, m, from, length, offset, first, last, Put(marks, g, mark), PutMap(marks, g, mark), i + 1)
  {
    hide *;
    var at, o := offset + m.offset, from + owner.offset;
    CopyingParts(was, owner, m, from, length, offset, first, last, marks, g, i);
    StepAt(was, owner, from, length, at, first, last, i);
    var mark := Step(was, owner, from, at, i);
    AllWideAt(was, marks, i);
    PutRuns(marks, g, mark);
    PutWide(marks, g, mark);
    PutKeepsOwner(was, owner, marks, g, mark);
    StepCopies(was, owner, from, length, marks, g, offset, first, last, i);
    StepKeeps(was, m, at, marks, g, mark, i == first);
    GrewOn(was, m, marks, g, mark, i > first);
    CopyingFrom(was, owner, m, from, length, offset, first, last, Put(marks, g, mark), PutMap(marks, g, mark), i + 1);
  }

  lemma AllWideAt(was: seq<Mark>, marks: seq<Mark>, i: nat)
    requires AllWide(marks) && i < |was| <= |marks| && marks[i] == was[i]
    ensures was[i].width >= 1
  {
  }

  lemma CopyingParts(was: seq<Mark>, owner: Map, m: Map, from: int, length: int, offset: int, first: nat, last: nat,
                     marks: seq<Mark>, g: Map, i: nat)
    requires Sliced(was, owner, from, length, first, last) && Open(was, m, offset + m.offset) && first <= i <= last
    requires Lone(was, owner, m, offset + m.offset)
    requires Copying(was, owner, m, from, length, offset, first, last, marks, g, i)
    ensures Runs(was, owner) && owner.first <= first && last < owner.first + owner.count
    ensures var at, reach := offset + m.offset, Reach(was, i, last, from + owner.offset, length);
            && AllWide(marks) && |was| <= |marks| && g.offset == m.offset && marks[i] == was[i] && i < |was|
            && (forall k :: owner.first <= k < owner.first + owner.count ==> marks[k] == was[k])
            && (i <= first ==> marks == was && g == m)
            && Open(marks, g, at + reach) && In(marks, g)
            && (i > first ==> g.count > 0 && marks[g.first].at <= at && FrontKept(was, m, at, marks, g))
            && (i > first ==> End(marks, g) < at + reach)
            && (g.count > 0 ==> marks[g.first].at <= at || (i == first && marks[g.first].at <= at + reach))
            && Copied(was, owner, from, marks, g, offset, reach)
            && OthersKept(was, m, at, marks) && Grew(was, m, marks, g, i > first)
    ensures i == first && g.count > 0 && owner.first <= g.first + g.count - 1 < owner.first + owner.count ==>
              In(was, m) && End(was, m) < offset + m.offset
    ensures OthersKept(was, m, offset + m.offset, marks)
  {
    hide RunAt, Reach, Copied, OthersKept, FrontKept, AllWide, Grew;
  }

  lemma CopyingFrom(was: seq<Mark>, owner: Map, m: Map, from: int, length: int, offset: int, first: nat, last: nat,
                    marks: seq<Mark>, g: Map, i: nat)
    requires Runs(was, owner) && Open(was, m, offset + m.offset) && first <= last < owner.first + owner.count && i > first
    requires var at, reach := offset + m.offset, Reach(was, i, last, from + owner.offset, length);
             && AllWide(marks) && |was| <= |marks| && g.offset == m.offset
             && (forall k :: owner.first <= k < owner.first + owner.count ==> marks[k] == was[k])
             && Runs(marks, g) && End(marks, g) <= at + reach && (i <= last ==> End(marks, g) < at + reach)
             && marks[g.first].at <= at && FrontKept(was, m, at, marks, g)
             && Copied(was, owner, from, marks, g, offset, reach)
             && OthersKept(was, m, at, marks) && Grew(was, m, marks, g, true)
    ensures Copying(was, owner, m, from, length, offset, first, last, marks, g, i)
  {
    hide RunAt, Reach, Copied, OthersKept, FrontKept, AllWide, Grew;
  }

  lemma StepAt(was: seq<Mark>, owner: Map, from: int, length: int, at: int, first: nat, last: nat, i: nat)
    requires Sliced(was, owner, from, length, first, last) && first <= i <= last
    ensures owner.first <= i < owner.first + owner.count
    ensures var mark, o := Step(was, owner, from, at, i), from + owner.offset;
            && mark.at == at + Reach(was, i, last, o, length) && mark.width == was[i].width
            && (i == first ==> Reach(was, i, last, o, length) == 0)
            && Reach(was, i, last, o, length) >= 0
            && (if i < last then Reach(was, i, last, o, length) < Reach(was, i + 1, last, o, length)
                else Reach(was, i, last, o, length) <= Reach(was, i + 1, last, o, length))
  {
    hide RunAt, Recut;
    var o := from + owner.offset;
    RecutIs(was[i], Start(was[i], o), at + Start(was[i], o) - o);
    RunFits(was, owner.first, owner.count, o);
    RunFits(was, owner.first, owner.count, o + length - 1);
  }

  lemma StepCopies(was: seq<Mark>, owner: Map, from: int, length: int, marks: seq<Mark>, g: Map, offset: int,
                   first: nat, last: nat, i: nat)
    requires Sliced(was, owner, from, length, first, last) && first <= i <= last
    requires var reach := Reach(was, i, last, from + owner.offset, length);
             && Copied(was, owner, from, marks, g, offset, reach)
             && Open(marks, g, offset + g.offset + reach) && (i > first ==> g.count > 0 && marks[g.first].at <= offset + g.offset)
    ensures var mark := Step(was, owner, from, offset + g.offset, i);
            Copied(was, owner, from, Put(marks, g, mark), PutMap(marks, g, mark), offset,
                   Reach(was, i + 1, last, from + owner.offset, length))
  {
    hide Copied, Reach, RunAt, Recut, Put, PutMap;
    CopyStep(was, owner, from, length, marks, g, offset, i, first, last);
  }

  lemma StepKeeps(was: seq<Mark>, m: Map, at: int, marks: seq<Mark>, g: Map, mark: Mark, starts: bool)
    requires Open(was, m, at) && Open(marks, g, mark.at) && OthersKept(was, m, at, marks) && g.offset == m.offset && at <= mark.at
    requires if starts then marks == was && g == m && mark.at == at
             else g.count > 0 && FrontKept(was, m, at, marks, g) && End(marks, g) < mark.at
    ensures OthersKept(was, m, at, Put(marks, g, mark))
    ensures FrontKept(was, m, at, Put(marks, g, mark), PutMap(marks, g, mark))
  {
    hide OthersKept, FrontKept, Put, PutMap;
    if starts {
      OthersFirst(was, m, mark);
      FrontFirst(was, m, mark);
    } else {
      OthersNext(was, m, at, marks, g, mark);
      FrontNext(was, m, at, marks, g, mark);
    }
  }

  lemma PutKeepsOwner(was: seq<Mark>, owner: Map, marks: seq<Mark>, g: Map, mark: Mark)
    requires Runs(was, owner) && Open(marks, g, mark.at) && |was| <= |marks|
    requires forall k :: owner.first <= k < owner.first + owner.count ==> marks[k] == was[k]
    requires g.count > 0 && owner.first <= g.first + g.count - 1 < owner.first + owner.count ==> End(marks, g) < mark.at
    ensures |marks| <= |Put(marks, g, mark)|
    ensures forall k :: owner.first <= k < owner.first + owner.count ==> Put(marks, g, mark)[k] == was[k]
  {
    hide Put;
    forall k | owner.first <= k < owner.first + owner.count
      ensures |marks| <= |Put(marks, g, mark)| && Put(marks, g, mark)[k] == was[k]
    {
      PutKeeps(marks, g, mark, k);
    }
    PutKeeps(marks, g, mark, owner.first);
  }

  lemma CopyReads(was: seq<Mark>, owner: Map, m: Map, from: int, length: int, offset: int, first: nat, last: nat,
                  marks: seq<Mark>, g: Map, i: nat)
    requires Sliced(was, owner, from, length, first, last) && Open(was, m, offset + m.offset) && first <= i <= last
    requires Copying(was, owner, m, from, length, offset, first, last, marks, g, i)
    ensures i < |marks| && marks[i] == was[i] && g.offset == m.offset
  {
  }

  lemma RelativeStep(was: seq<Mark>, owner: Map, from: int, offset: int, base: int, i: nat)
    requires i < |was|
    ensures var o := from + owner.offset;
            var mark := Recut(was[i], Start(was[i], o), offset + Start(was[i], o) - o);
            mark.(at := mark.at + base) == Step(was, owner, from, offset + base, i)
            && mark.at + base == Step(was, owner, from, offset + base, i).at
            && mark.width == was[i].width
  {
  }

  /** What a copy that went on to its end, or stopped, leaves. */
  lemma CopyEnds(was: seq<Mark>, owner: Map, m: Map, from: int, length: int, offset: int, first: nat, last: nat,
                 marks: seq<Mark>, g: Map)
    requires Sliced(was, owner, from, length, first, last) && Open(was, m, offset + m.offset)
    requires Copying(was, owner, m, from, length, offset, first, last, marks, g, last + 1)
    ensures Copied(was, owner, from, marks, g, offset, length)
    ensures FrontKept(was, m, offset + m.offset, marks, g) && OthersKept(was, m, offset + m.offset, marks)
    ensures Grew(was, m, marks, g, true) && AllWide(marks) && Runs(marks, g) && g.offset == m.offset
    ensures marks[g.first].at <= offset + m.offset
    ensures End(marks, g) <= offset + m.offset + length
  {
  }

  lemma CopyStops(was: seq<Mark>, owner: Map, m: Map, from: int, length: int, offset: int, first: nat, last: nat,
                  marks: seq<Mark>, g: Map, i: nat)
    requires Sliced(was, owner, from, length, first, last) && Open(was, m, offset + m.offset)
    requires Copying(was, owner, m, from, length, offset, first, last, marks, g, i)
    ensures OthersKept(was, m, offset + m.offset, marks) && In(marks, g) && Spares(was, m, marks)
    ensures OthersKept(was, m, offset + m.offset, Moved(marks, g)) && Spares(was, m, Moved(marks, g))
  {
    OthersMoved(was, m, offset + m.offset, marks, g);
  }

  // ---------- Maps that go forward in their source ----------

  /** The source a slice of run `mark`, from `from` up to `upto`, is read from. */
  function SliceStart(mark: Mark, from: int): int {
    mark.source + (from - mark.at) * mark.step
  }

  function SliceStop(mark: Mark, from: int, upto: int): int {
    SliceStart(mark, from) + (upto - from - 1) * mark.step + mark.width
  }

  /** A run of `size` bytes: copied ones, some of the three that stand for one NUL, or one that stands for an escape. */
  predicate IsRun(mark: Mark, size: int) {
    && mark.width >= 1
    && ((mark.width == 1 && (mark.step == 0 || mark.step == 1)) || (size <= 1 && mark.step == mark.width))
  }

  /** Where run `i` of a map of `n` bytes ends. */
  ghost function RunEnd(marks: seq<Mark>, m: Map, n: int, i: nat): int
    requires In(marks, m) && i < m.first + m.count
  {
    if i + 1 < m.first + m.count then marks[i + 1].at else m.offset + n
  }

  /** Each run reads source past that of the run before it. */
  ghost predicate Past(marks: seq<Mark>, i: nat)
    requires i + 1 < |marks|
  {
    SliceStop(marks[i], marks[i].at, marks[i + 1].at) <= marks[i + 1].source
  }

  /** A MAP OF `n` BYTES READ FORWARD: each run is of one of the kinds there are, and starts where the source of the
      run before it ends, or past it. */
  ghost predicate Sourced(marks: seq<Mark>, m: Map, n: int)
  {
    && In(marks, m) && 0 <= n && (m.count == 0 ==> n == 0)
    && (m.count > 0 ==>
          && Runs(marks, m) && marks[m.first].at <= m.offset && End(marks, m) < m.offset + n && 0 <= marks[m.first].source
          && AllRuns(marks, m, n) && AllPast(marks, m))
  }

  ghost predicate AllRuns(marks: seq<Mark>, m: Map, n: int)
    requires In(marks, m)
  {
    forall i: nat :: m.first <= i < m.first + m.count ==> RunIn(marks, m, n, i)
  }

  ghost predicate RunIn(marks: seq<Mark>, m: Map, n: int, i: nat)
    requires In(marks, m) && i < m.first + m.count
  {
    IsRun(marks[i], RunEnd(marks, m, n, i) - marks[i].at)
  }

  ghost predicate AllPast(marks: seq<Mark>, m: Map)
    requires In(marks, m)
  {
    forall i: nat :: m.first <= i < m.first + m.count - 1 ==> Past(marks, i)
  }

  /** Where the source of its last byte ends. */
  ghost function LastStop(marks: seq<Mark>, m: Map, n: int): int
    requires In(marks, m) && m.count > 0
  {
    At(marks, m, n - 1).end
  }

  lemma SourcedParts(marks: seq<Mark>, m: Map, n: int)
    requires Sourced(marks, m, n)
    ensures In(marks, m) && m.first + m.count <= |marks| && 0 <= n && (m.count == 0 ==> n == 0) && Open(marks, m, m.offset + n)
    ensures m.count > 0 ==>
              && Runs(marks, m) && marks[m.first].at <= m.offset && End(marks, m) < m.offset + n && 0 <= marks[m.first].source
              && AllRuns(marks, m, n) && AllPast(marks, m) && marks[m.first].at <= End(marks, m)
    ensures m.count > 0 ==> End(marks, m) == marks[m.first + m.count - 1].at
  {
    hide AllRuns, AllPast;
  }

  lemma SourcedFrom(marks: seq<Mark>, m: Map, n: int)
    requires Runs(marks, m) && marks[m.first].at <= m.offset && End(marks, m) < m.offset + n && 0 <= marks[m.first].source
    requires AllRuns(marks, m, n) && AllPast(marks, m) && 0 <= n
    ensures Sourced(marks, m, n)
  {
  }

  lemma LastStopIs(marks: seq<Mark>, m: Map, n: int)
    requires Sourced(marks, m, n) && m.count > 0
    ensures var last := marks[m.first + m.count - 1]; LastStop(marks, m, n) == SliceStop(last, last.at, m.offset + n)
  {
    hide *;
    SourcedParts(marks, m, n);
    var i := m.first + m.count - 1;
    RunIs(marks, m.first, m.count, m.offset + n - 1, i);
    AtRun(marks, m, n - 1, i);
    StopIs(marks[i], m.offset + n);
    StopAt(marks, m, n);
  }

  lemma StopAt(marks: seq<Mark>, m: Map, n: int)
    requires In(marks, m) && m.count > 0
    ensures LastStop(marks, m, n) == At(marks, m, n - 1).end
  {
  }

  lemma StopIs(mark: Mark, upto: int)
    ensures SliceStop(mark, mark.at, upto) == SpotOf(mark, upto - 1).end
  {
  }

  lemma SourcedEmpty(marks: seq<Mark>, m: Map)
    requires In(marks, m) && m.count == 0
    ensures Sourced(marks, m, 0)
  {
  }

  /** A RUN PUT AT THE END of a map that goes forward, past its source, leaves it so. */
  lemma PutSourced(marks: seq<Mark>, m: Map, n: int, mark: Mark, size: int)
    requires Sourced(marks, m, n) && mark.at == m.offset + n && size > 0 && IsRun(mark, size) && 0 <= mark.source
    requires m.count > 0 ==> LastStop(marks, m, n) <= mark.source
    ensures Sourced(Put(marks, m, mark), PutMap(marks, m, mark), n + size)
  {
    hide *;
    SourcedParts(marks, m, n);
    PutRuns(marks, m, mark);
    PutLast(marks, m, mark);
    if m.count > 0 {
      LastStopIs(marks, m, n);
      PutAllRuns(marks, m, n, mark, size);
      PutAllPast(marks, m, n, mark);
    } else {
      PutFirstRun(marks, m, n, mark, size);
    }
    SourcedFrom(Put(marks, m, mark), PutMap(marks, m, mark), n + size);
  }

  lemma PutFirstRun(marks: seq<Mark>, m: Map, n: int, mark: Mark, size: int)
    requires In(marks, m) && m.count == 0 && mark.at == m.offset + n && IsRun(mark, size)
    ensures var r, g := Put(marks, m, mark), PutMap(marks, m, mark);
            && In(r, g) && g.count == 1 && r[g.first] == mark && AllRuns(r, g, n + size) && AllPast(r, g)
  {
  }

  lemma PutAllRuns(marks: seq<Mark>, m: Map, n: int, mark: Mark, size: int)
    requires Open(marks, m, mark.at) && m.count > 0 && End(marks, m) < mark.at == m.offset + n
    requires AllRuns(marks, m, n) && IsRun(mark, size)
    ensures var r, g := Put(marks, m, mark), PutMap(marks, m, mark); In(r, g) && AllRuns(r, g, n + size)
  {
    hide Put, PutMap, IsRun, Runs, Open;
    PutLast(marks, m, mark);
    var r, g, more := Put(marks, m, mark), PutMap(marks, m, mark), n + size;
    forall i: nat | g.first <= i < g.first + g.count
      ensures RunIn(r, g, more, i)
    {
      if i < g.first + g.count - 1 {
        var k: nat := i - g.first + m.first;
        assert r[i] == marks[k] && RunIn(marks, m, n, k);
      }
    }
  }

  lemma PutAllPast(marks: seq<Mark>, m: Map, n: int, mark: Mark)
    requires Open(marks, m, mark.at) && m.count > 0 && End(marks, m) < mark.at == m.offset + n && AllPast(marks, m)
    requires var last := marks[m.first + m.count - 1]; SliceStop(last, last.at, mark.at) <= mark.source
    ensures var r, g := Put(marks, m, mark), PutMap(marks, m, mark); In(r, g) && AllPast(r, g)
  {
    hide Put, PutMap, SliceStop, Runs, Open;
    PutLast(marks, m, mark);
    var r, g := Put(marks, m, mark), PutMap(marks, m, mark);
    forall i: nat | g.first <= i < g.first + g.count - 1
      ensures Past(r, i)
    {
      var k: nat := i - g.first + m.first;
      assert r[i] == marks[k];
      if i < g.first + g.count - 2 {
        assert r[i + 1] == marks[k + 1] && Past(marks, k);
      }
    }
  }

  /** The runs of a map with one more put past its last: its own, and that. */
  lemma PutLast(marks: seq<Mark>, m: Map, mark: Mark)
    requires Open(marks, m, mark.at) && (m.count > 0 ==> End(marks, m) < mark.at)
    ensures In(marks, m)
    ensures var r, g := Put(marks, m, mark), PutMap(marks, m, mark);
            && g.count == m.count + 1 && g.offset == m.offset && In(r, g) && r[g.first + m.count] == mark
            && (forall i :: g.first <= i < g.first + m.count ==> r[i] == marks[i - g.first + m.first])
  {
  }

  /** A SLICE OF A MAP THAT GOES FORWARD DOES. */
  lemma SliceSourced(marks: seq<Mark>, owner: Map, n: int, from: int, length: int)
    requires Sourced(marks, owner, n) && owner.count > 0 && 0 <= from && 0 < length && from + length <= n
    ensures Sourced(marks, Slice(marks, owner, from, length), length)
  {
    hide *;
    SourcedParts(marks, owner, n);
    var o, m := from + owner.offset, Slice(marks, owner, from, length);
    SliceIs(marks, owner, from, length);
    SourceUp(marks, owner, n, m.first);
    SubRuns(marks, owner, m);
    SliceRuns(marks, owner, n, from, length);
    SourcedFrom(marks, m, length);
  }

  lemma SliceIs(marks: seq<Mark>, owner: Map, from: int, length: int)
    requires Runs(marks, owner) && length > 0 && marks[owner.first].at <= from + owner.offset
    ensures var o, m := from + owner.offset, Slice(marks, owner, from, length);
            && In(marks, m) && m.count > 0 && m.offset == o && owner.first <= m.first && m.first + m.count <= owner.first + owner.count
            && marks[m.first].at <= o && End(marks, m) <= o + length - 1
            && (m.first + m.count < owner.first + owner.count ==> o + length <= marks[m.first + m.count].at)
            && m.first == RunAt(marks, owner.first, owner.count, o)
            && m.first + m.count - 1 == RunAt(marks, owner.first, owner.count, o + length - 1)
  {
    hide RunAt;
    var o := from + owner.offset;
    RunOrder(marks, owner.first, owner.count, o, o + length - 1);
    RunFits(marks, owner.first, owner.count, o);
    RunFits(marks, owner.first, owner.count, o + length - 1);
  }

  lemma SliceRuns(marks: seq<Mark>, owner: Map, n: int, from: int, length: int)
    requires Runs(marks, owner) && length > 0 && marks[owner.first].at <= from + owner.offset && from + length <= n
    requires AllRuns(marks, owner, n) && AllPast(marks, owner)
    ensures var m := Slice(marks, owner, from, length); AllRuns(marks, m, length) && AllPast(marks, m)
  {
    hide Slice, Past;
    SliceIs(marks, owner, from, length);
    var m := Slice(marks, owner, from, length);
    forall i: nat | m.first <= i < m.first + m.count
      ensures RunIn(marks, m, length, i)
    {
      assert RunIn(marks, owner, n, i);
      ShorterRun(marks[i], RunEnd(marks, owner, n, i) - marks[i].at, RunEnd(marks, m, length, i) - marks[i].at);
    }
  }

  lemma ShorterRun(mark: Mark, size: int, less: int)
    requires IsRun(mark, size) && less <= size
    ensures IsRun(mark, less)
  {
  }

  lemma {:induction false} SourceUp(marks: seq<Mark>, m: Map, n: int, i: nat)
    requires Sourced(marks, m, n) && m.count > 0 && m.first <= i < m.first + m.count
    ensures 0 <= marks[i].source
    decreases i
  {
    hide *;
    SourcedParts(marks, m, n);
    if m.first < i {
      SourceUp(marks, m, n, i - 1);
      RunsSpan(marks, m, n, i - 1);
    }
  }

  /** A run that is not the last starts before the next, whose source is past its own. */
  lemma RunsSpan(marks: seq<Mark>, m: Map, n: int, i: nat)
    requires Sourced(marks, m, n) && m.first <= i < m.first + m.count - 1
    ensures marks[i].at < marks[i + 1].at && marks[i].source < SliceStop(marks[i], marks[i].at, marks[i + 1].at) <= marks[i + 1].source
  {
    assert Past(marks, i) && RunIn(marks, m, n, i);
    TimesUp(0, marks[i + 1].at - marks[i].at - 1, marks[i].step);
  }

  /** and one whose runs no other map wrote over still does. */
  lemma SourcedStays(was: seq<Mark>, marks: seq<Mark>, m: Map, n: int)
    requires Sourced(was, m, n) && In(marks, m) && marks[m.first..m.first + m.count] == was[m.first..m.first + m.count]
    ensures Sourced(marks, m, n)
  {
    hide *;
    SourcedParts(was, m, n);
    if m.count > 0 {
      SameRunsAt(was, marks, m);
      SameAll(was, marks, m, n);
      SourcedFrom(marks, m, n);
    } else {
      SourcedEmpty(marks, m);
    }
  }

  /** Every map that goes forward, and has not `m`'s last run, goes forward over `marks` as it did over `was`. */
  ghost predicate OthersForward(was: seq<Mark>, m: Map, marks: seq<Mark>)
  {
    forall o, n :: Sourced(was, o, n) && Without(o, m) ==> Sourced(marks, o, n)
  }

  ghost predicate Without(o: Map, m: Map)
  {
    m.count == 0 || !(o.first <= m.first + m.count - 1 < o.first + o.count)
  }

  lemma ForwardStays(was: seq<Mark>, m: Map, marks: seq<Mark>)
    requires Spares(was, m, marks)
    ensures OthersForward(was, m, marks)
  {
    hide Sourced;
    forall o, n | Sourced(was, o, n) && Without(o, m)
      ensures Sourced(marks, o, n)
    {
      SourcedParts(was, o, n);
      assert marks[o.first..o.first + o.count] == was[o.first..o.first + o.count];
      SourcedStays(was, marks, o, n);
    }
  }

  /** So it does when `m` is moved to the end, or given a run there. */
  lemma PutForward(was: seq<Mark>, m: Map, mark: Mark)
    requires In(was, m)
    ensures OthersForward(was, m, was) && OthersForward(was, m, Moved(was, m)) && OthersForward(was, m, Put(was, m, mark))
  {
    hide OthersForward;
    ForwardStays(was, m, was);
    ForwardStays(was, m, Moved(was, m));
    ForwardStays(was, m, Put(was, m, mark));
  }

  lemma SameAll(was: seq<Mark>, marks: seq<Mark>, m: Map, n: int)
    requires Runs(was, m) && In(marks, m) && AllRuns(was, m, n) && AllPast(was, m)
    requires forall i :: m.first <= i < m.first + m.count ==> marks[i] == was[i]
    ensures Runs(marks, m) && AllRuns(marks, m, n) && AllPast(marks, m) && End(marks, m) == End(was, m)
  {
    hide SliceStop, IsRun;
    forall i: nat | m.first <= i < m.first + m.count - 1
      ensures Past(marks, i)
    {
      assert Past(was, i);
    }
    forall i: nat | m.first <= i < m.first + m.count
      ensures RunIn(marks, m, n, i)
    {
      assert RunIn(was, m, n, i);
    }
  }

  lemma SameRunsAt(was: seq<Mark>, marks: seq<Mark>, m: Map)
    requires In(was, m) && In(marks, m) && marks[m.first..m.first + m.count] == was[m.first..m.first + m.count]
    ensures forall i :: m.first <= i < m.first + m.count ==> marks[i] == was[i]
  {
    forall i | m.first <= i < m.first + m.count
      ensures marks[i] == was[i]
    {
      assert marks[i] == marks[m.first..m.first + m.count][i - m.first];
    }
  }

  /** A CELL'S ESCAPE, one content byte for `width` source bytes, keeps a map that goes forward one that does. */
  lemma EscapeSourced(marks: seq<Mark>, m: Map, n: int, line: int, source: int, width: int)
    requires Sourced(marks, m, n) && width >= 1 && 0 <= source && (m.count > 0 ==> LastStop(marks, m, n) <= source)
    ensures var mark := Mark(n + m.offset, line, source, width, width, 0);
            var r, g := Put(marks, m, mark), PutMap(marks, m, mark);
            && Sourced(r, g, n + 1) && In(r, g) && g.count > 0 && At(r, g, n) == Spot(line, source, source + width, 0)
  {
    hide *;
    var mark := Mark(n + m.offset, line, source, width, width, 0);
    SourcedParts(marks, m, n);
    EscapeIs(mark);
    PutSourced(marks, m, n, mark, 1);
    PutRuns(marks, m, mark);
    PutAnswers(marks, m, mark, n);
    InRuns(Put(marks, m, mark), PutMap(marks, m, mark));
  }

  lemma EscapeIs(mark: Mark)
    requires mark.width == mark.step >= 1
    ensures IsRun(mark, 1) && SpotOf(mark, mark.at) == Spot(mark.line, mark.source, mark.source + mark.width, mark.indent)
  {
  }

  lemma InRuns(marks: seq<Mark>, m: Map)
    requires Runs(marks, m)
    ensures In(marks, m) && m.count > 0
  {
  }

  /** THE COLUMNS LEFT OF A TAB of which some were taken as indentation are put as one copied run, then the line's
      rest as another. So the first of `columns` spaces is read from the tab, and each other from as far past it: from
      a byte after the tab, which is the source of another content byte too. */
  lemma TabColumns(marks: seq<Mark>, m: Map, n: int, line: int, tab: int, columns: int, indent: int, k: int)
    requires Open(marks, m, n + m.offset) && 0 <= k < columns
    ensures var first, rest := Mark(n + m.offset, line, tab, 1, 1, indent), Mark(n + columns + m.offset, line, tab + 1, 1, 1, indent);
            var one, g := Put(marks, m, first), PutMap(marks, m, first);
            var two, h := Put(one, g, rest), PutMap(one, g, rest);
            && In(two, h) && h.count > 0
            && At(two, h, n + k) == Spot(line, tab + k, tab + k + 1, indent)
            && (At(two, h, n + k) == Spot(line, tab, tab + 1, indent) <==> k == 0)
            && (k > 0 ==> At(two, h, n + columns + k - 1) == At(two, h, n + k))
  {
    hide At, RunAt, Put, PutMap;
    var first, rest := Mark(n + m.offset, line, tab, 1, 1, indent), Mark(n + columns + m.offset, line, tab + 1, 1, 1, indent);
    var one, g := Put(marks, m, first), PutMap(marks, m, first);
    PutRuns(marks, m, first);
    PutAnswers(marks, m, first, n + k);
    FirstFits(one, g);
    PutAnswers(one, g, rest, n + k);
    PutAnswers(one, g, rest, n + columns + k - 1);
  }

  lemma FirstFits(marks: seq<Mark>, m: Map)
    requires Runs(marks, m)
    ensures marks[m.first].at <= End(marks, m)
  {
  }

  /** The `length` bytes of `owner` from `from` on go forward from the source of the `offset` bytes of `m`. */
  ghost predicate Follows(was: seq<Mark>, owner: Map, m: Map, from: int, length: int, offset: int)
    requires Runs(was, owner) && length > 0
  {
    && Sourced(was, m, offset) && Sourced(was, Slice(was, owner, from, length), length)
    && (m.count > 0 ==> LastStop(was, m, offset) <= At(was, owner, from).start)
  }

  /** A run more of a slice that goes forward from a map's. */
  lemma StepSourced(was: seq<Mark>, owner: Map, m: Map, from: int, length: int, offset: int, first: nat, last: nat,
                    marks: seq<Mark>, g: Map, i: nat)
    requires Sliced(was, owner, from, length, first, last) && Open(was, m, offset + m.offset) && first <= i <= last < |was|
    requires Copying(was, owner, m, from, length, offset, first, last, marks, g, i)
    requires Follows(was, owner, m, from, length, offset) && g.offset == m.offset
    requires Sourced(marks, g, offset + Reach(was, i, last, from + owner.offset, length))
    ensures var mark := Step(was, owner, from, offset + m.offset, i);
            && In(marks, g)
            && Sourced(Put(marks, g, mark), PutMap(marks, g, mark), offset + Reach(was, i + 1, last, from + owner.offset, length))
  {
    hide *;
    var o, at := from + owner.offset, offset + m.offset;
    var reach, next := Reach(was, i, last, o, length), Reach(was, i + 1, last, o, length);
    var mark := Step(was, owner, from, at, i);
    StepAt(was, owner, from, length, at, first, last, i);
    FollowsParts(was, owner, m, from, length, offset, first, last);
    StepRun(was, owner, from, length, at, first, last, i);
    StepPast(was, owner, m, from, length, offset, first, last, marks, g, i);
    PutSourced(marks, g, offset + reach, mark, next - reach);
  }

  lemma FollowsParts(was: seq<Mark>, owner: Map, m: Map, from: int, length: int, offset: int, first: nat, last: nat)
    requires Sliced(was, owner, from, length, first, last) && Follows(was, owner, m, from, length, offset)
    ensures In(was, owner) && owner.count > 0 && Sourced(was, m, offset) && Sourced(was, Slice(was, owner, from, length), length)
  {
  }

  /** The run put is of a kind there is, and its source is that of its first byte, past those before it. */
  lemma StepRun(was: seq<Mark>, owner: Map, from: int, length: int, at: int, first: nat, last: nat, i: nat)
    requires Sliced(was, owner, from, length, first, last) && first <= i <= last < |was|
    requires Sourced(was, Slice(was, owner, from, length), length)
    ensures var o := from + owner.offset;
            var mark, size := Step(was, owner, from, at, i), Reach(was, i + 1, last, o, length) - Reach(was, i, last, o, length);
            && size > 0 && IsRun(mark, size) && 0 <= mark.source
            && mark.source == At(was, owner, from + Reach(was, i, last, o, length)).start
            && (i > first ==> At(was, owner, from + Reach(was, i, last, o, length) - 1).end <= mark.source)
  {
    hide *;
    SlicedParts(was, owner, from, length, first, last, i);
    var o := from + owner.offset;
    var slice := Slice(was, owner, from, length);
    var reach, next := Reach(was, i, last, o, length), Reach(was, i + 1, last, o, length);
    SourceUp(was, slice, length, i);
    StepCut(was, owner, from, length, at, last, i);
    RunIs(was, owner.first, owner.count, o + reach, i);
    AtRun(was, owner, from + reach, i);
    if i > first {
      RunsSpan(was, slice, length, i - 1);
      RunIs(was, owner.first, owner.count, o + reach - 1, i - 1);
      AtRun(was, owner, from + reach - 1, i - 1);
      StopIs(was[i - 1], was[i].at);
      SpotFirst(was[i]);
    }
  }

  lemma SpotFirst(mark: Mark)
    ensures SpotOf(mark, mark.at).start == mark.source
  {
  }

  lemma SlicedParts(was: seq<Mark>, owner: Map, from: int, length: int, first: nat, last: nat, i: nat)
    requires Sliced(was, owner, from, length, first, last) && first <= i <= last < |was|
    requires Sourced(was, Slice(was, owner, from, length), length)
    ensures var o, slice := from + owner.offset, Slice(was, owner, from, length);
            && In(was, owner) && owner.first + owner.count <= |was| && owner.count > 0 && length > 0 && slice.first == first && slice.count == last - first + 1 && slice.offset == o
            && owner.first <= i < owner.first + owner.count
            && IsRun(was[i], (if i < last then was[i + 1].at else o + length) - was[i].at)
            && (if i == first then was[i].at <= o else was[i].at > o) && was[i].at < o + length
            && (forall k :: i < k < owner.first + owner.count ==> was[k].at > was[i].at)
            && (i > first ==> was[i].at > was[i - 1].at && was[i - 1].at < o + length)
            && (i == first ==> forall k :: i < k < owner.first + owner.count ==> was[k].at > o)
            && (i > first ==> forall k :: i - 1 < k < owner.first + owner.count ==> was[k].at > was[i].at - 1)
            && (i == last ==> forall k :: i < k < owner.first + owner.count ==> was[k].at >= o + length)
  {
    hide RunAt, IsRun, Past;
    var o := from + owner.offset;
    RunFits(was, owner.first, owner.count, o);
    RunFits(was, owner.first, owner.count, o + length - 1);
    assert RunIn(was, Slice(was, owner, from, length), length, i);
  }

  /** A run cut at its slice: of the same kind, and from where its first byte there is read. */
  lemma StepCut(was: seq<Mark>, owner: Map, from: int, length: int, at: int, last: nat, i: nat)
    requires i <= last < |was| && 0 <= was[i].source && length > 0
    requires IsRun(was[i], (if i < last then was[i + 1].at else from + owner.offset + length) - was[i].at)
    requires was[i].at < from + owner.offset + length && (i < last ==> was[i + 1].at > was[i].at && was[i + 1].at > from + owner.offset)
    ensures var o := from + owner.offset;
            var mark, reach, next := Step(was, owner, from, at, i), Reach(was, i, last, o, length), Reach(was, i + 1, last, o, length);
            && next > reach && IsRun(mark, next - reach) && 0 <= mark.source
            && o + reach == (if was[i].at < o then o else was[i].at) && mark.source == SpotOf(was[i], o + reach).start
  {
    var o := from + owner.offset;
    var from2 := Start(was[i], o);
    assert Reach(was, i, last, o, length) == from2 - o;
    assert Step(was, owner, from, at, i).source == was[i].source + (from2 - was[i].at) * was[i].step == SpotOf(was[i], from2).start;
    assert SpotOf(was[i], o + Reach(was, i, last, o, length)) == SpotOf(was[i], from2);
    TimesUp(0, Start(was[i], o) - was[i].at, was[i].step);
  }

  /** It is past the source of the map's last byte. */
  lemma StepPast(was: seq<Mark>, owner: Map, m: Map, from: int, length: int, offset: int, first: nat, last: nat,
                 marks: seq<Mark>, g: Map, i: nat)
    requires Sliced(was, owner, from, length, first, last) && Open(was, m, offset + m.offset) && first <= i <= last < |was|
    requires Copying(was, owner, m, from, length, offset, first, last, marks, g, i)
    requires Follows(was, owner, m, from, length, offset)
    ensures In(marks, g)
    ensures g.count > 0 ==> LastStop(marks, g, offset + Reach(was, i, last, from + owner.offset, length))
                            <= Step(was, owner, from, offset + m.offset, i).source
  {
    hide RunAt, At, Reach, IsRun, Sourced, Slice, Step, FrontKept, OthersKept, Grew;
    var o := from + owner.offset;
    var reach := Reach(was, i, last, o, length);
    StepAt(was, owner, from, length, offset + m.offset, first, last, i);
    StepRun(was, owner, from, length, offset + m.offset, first, last, i);
    if i > first {
      StepAt(was, owner, from, length, offset + m.offset, first, last, i - 1);
      assert Agrees(was, owner, from, marks, g, offset, reach - 1);
    }
  }

  lemma ReachEnds(was: seq<Mark>, owner: Map, m: Map, from: int, length: int, offset: int, first: nat, last: nat)
    requires Sliced(was, owner, from, length, first, last)
    ensures Reach(was, first, last, from + owner.offset, length) == 0
    ensures Reach(was, last + 1, last, from + owner.offset, length) == length
    ensures Follows(was, owner, m, from, length, offset) ==> Sourced(was, m, offset)
  {
    hide RunAt, Sourced;
    StepAt(was, owner, from, length, 0, first, last, first);
  }

  lemma RecutIs(mark: Mark, start: int, at: int)
    ensures Recut(mark, start, at).at == at && Recut(mark, start, at).width == mark.width
  {
  }

  /** Both ends of a span of content, those that were resolved, and the runs that answered them. */
  datatype Span = Span(start: Option<int>, end: Option<int>, first: nat, last: nat)

  const NO_SPAN := Span(None, None, 0, 0)

  // ---------- The vector ----------

  class ContentMarks {
    var marks: seq<Mark>

    constructor ()
      ensures marks == []
    {
      marks := [];
    }

    /** The run an offset lies in, looked for from `hint`, and how many runs were looked at: the hint's, the one
        after it, and those a search of the rest halves its way through. A hint that is right, or one short, costs no
        search. */
    method MarkNear(m: Map, offset: int, hint: int) returns (at: nat, probes: nat)
      requires Runs(marks, m)
      ensures at == RunAt(marks, m.first, m.count, offset)
      ensures probes <= 2 + Halvings(m.count)
      ensures var h := Hinted(m, hint);
              && (at == h ==> probes == 1) && (at == h + 1 ==> probes == 2)
              && (at < h ==> probes >= 1 + Halved(h - m.first))
              && (at > h + 1 ==> probes >= 2 + Halved(m.first + m.count - h - 2))
    {
      hide Halvings, Halved;
      var found, lo, hi;
      at, probes, found, lo, hi := Near(m, offset, hint);
      if !found {
        HalvingsGrow(if lo <= hi then hi - lo + 1 else 0, m.count);
        HalvedNone();
        var more;
        at, more := Search(m, offset, lo, hi);
        probes := probes + more;
      }
      RunIs(marks, m.first, m.count, offset, at);
    }

    /** The hint's run or the one after it, when the offset lies there, and else the runs that are left. */
    method Near(m: Map, offset: int, hint: int) returns (at: nat, probes: nat, found: bool, lo: nat, hi: int)
      requires Runs(marks, m)
      ensures m.first <= at < m.first + m.count
      ensures found ==> marks[at].at <= offset && (at + 1 < m.first + m.count ==> marks[at + 1].at > offset)
      ensures found ==> at == Hinted(m, hint) + probes - 1 && 1 <= probes <= 2
      ensures !found ==>
                && m.first <= lo <= hi + 1 <= m.first + m.count && lo < m.first + m.count && (lo <= hi || lo == m.first)
                && (lo == m.first || marks[lo].at <= offset) && (hi + 1 < m.first + m.count ==> marks[hi + 1].at > offset)
                && ((probes == 1 && lo == m.first && hi == Hinted(m, hint) - 1)
                    || (probes == 2 && lo == Hinted(m, hint) + 2 && hi == m.first + m.count - 1))
    {
      lo, hi := m.first, m.first + m.count - 1;
      at, probes := if lo <= hint <= hi then hint else lo, 1;
      found := false;
      if marks[at].at <= offset {
        found := true;
        if at != hi && marks[at + 1].at <= offset {
          probes := probes + 1;
          at := at + 1;
          if at != hi && marks[at + 1].at <= offset {
            lo := at + 1;
            found := false;
          }
        }
      } else {
        hi := at - 1;
      }
    }

    /** The run an offset lies in, of those from `lo` to `hi`. */
    method Search(m: Map, offset: int, low: int, high: int) returns (at: nat, probes: nat)
      requires Runs(marks, m) && m.first <= low <= high + 1 <= m.first + m.count && low < m.first + m.count
      requires low <= high || low == m.first
      requires low == m.first || marks[low].at <= offset
      requires high + 1 < m.first + m.count ==> marks[high + 1].at > offset
      ensures m.first <= at < m.first + m.count && (at == m.first || marks[at].at <= offset)
      ensures at + 1 < m.first + m.count ==> marks[at + 1].at > offset
      ensures Halved(if low <= high then high - low + 1 else 0) <= probes <= Halvings(if low <= high then high - low + 1 else 0)
    {
      hide Halvings, Halved;
      HalvedNone();
      var lo, hi := low, high;
      probes := 0;
      while lo < hi
        invariant m.first <= lo <= hi + 1 <= m.first + m.count && lo < m.first + m.count
        invariant lo <= hi || lo == m.first
        invariant lo == m.first || marks[lo].at <= offset
        invariant hi + 1 < m.first + m.count ==> marks[hi + 1].at > offset
        invariant probes + Halvings(if lo <= hi then hi - lo + 1 else 0) <= Halvings(if low <= high then high - low + 1 else 0)
        invariant probes + Halved(if lo <= hi then hi - lo + 1 else 0) >= Halved(if low <= high then high - low + 1 else 0)
        decreases hi - lo
      {
        var mid := lo + (hi - lo + 1) / 2;
        HalvingsGrow(mid - lo, (hi - lo + 2) / 2);
        HalvedGrow((hi - lo + 1) / 2, hi - mid + 1);
        HalvesOnce(hi - lo + 1);
        probes := probes + 1;
        if marks[mid].at <= offset {
          lo := mid;
        } else {
          hi := mid - 1;
        }
      }
      at := lo;
    }

    /** Whether the vector has, or could be given, room for `count` runs more. */
    method Reserve(count: nat, granted: bool) returns (ok: bool)
      ensures ok ==> |marks| + count <= INT32_MAX
      ensures granted && |marks| + count <= INT32_MAX ==> ok
    {
      if |marks| + count > INT32_MAX {
        return false;
      }
      ok := HasStorage(granted);
    }

    /** The runs of `m` copied to the vector's end; those it leaves stay for the maps that share them. */
    method Move(m: Map, granted: bool) returns (moved: Map, ok: bool)
      requires In(marks, m) && m.count > 0 && m.first + m.count != |marks|
      modifies this
      ensures if ok then marks == Moved(old(marks), m) && moved == MovedMap(old(marks), m)
              else marks == old(marks) && moved == m
      ensures granted && |old(marks)| + m.count <= INT32_MAX ==> ok
      ensures |old(marks)| <= INT32_MAX ==> |marks| <= INT32_MAX
    {
      ok := Reserve(m.count, granted);
      if !ok {
        return m, false;
      }
      moved := m.(first := |marks|);
      marks := marks + marks[m.first..m.first + m.count];
    }

    /** A run at content offset `mark.at` of `m` put at its end. */
    method AppendMark(m: Map, mark: Mark, granted: bool) returns (grown: Map, ok: bool)
      requires Open(marks, m, mark.at + m.offset) && mark.width >= 1
      modifies this
      ensures ok ==> marks == Put(old(marks), m, mark.(at := mark.at + m.offset))
      ensures ok ==> grown == PutMap(old(marks), m, mark.(at := mark.at + m.offset))
      ensures !ok ==> (marks == old(marks) && grown == m)
                      || (marks == Moved(old(marks), m) && grown == MovedMap(old(marks), m))
      ensures OthersForward(old(marks), m, marks)
      ensures |old(marks)| <= INT32_MAX ==> |marks| <= INT32_MAX
      ensures granted && Roomy(old(marks), m, 1) ==> ok
      ensures m.count > 0 && m.first + m.count == |old(marks)| && End(old(marks), m) == mark.at + m.offset ==> ok
    {
      hide OthersForward, Grown, GrownMap;
      grown, ok := m, true;
      PutForward(marks, m, mark.(at := mark.at + m.offset));
      var own := mark.(at := mark.at + m.offset);
      MovedAnswers(marks, m, 0);
      if m.count > 0 && m.first + m.count != |marks| {
        grown, ok := Move(m, granted);
        if !ok {
          return;
        }
      }
      grown, ok := PutRun(grown, own, granted);
    }

    /** A run put at the end of a map that ends the vector, or over its last where it starts. */
    method PutRun(m: Map, own: Mark, granted: bool) returns (grown: Map, ok: bool)
      requires AtEnd(marks, m) && (m.count > 0 ==> Runs(marks, m) && End(marks, m) <= own.at)
      modifies this
      ensures if ok then marks == Grown(old(marks), m, own) && grown == GrownMap(old(marks), m, own)
              else marks == old(marks) && grown == m
      ensures |old(marks)| <= INT32_MAX ==> |marks| <= INT32_MAX
      ensures (granted && |old(marks)| + 1 <= INT32_MAX) || (m.count > 0 && End(old(marks), m) == own.at) ==> ok
    {
      grown, ok := m, true;
      var last := |marks| - 1;
      if m.count > 0 && marks[last].at == own.at {
        marks := marks[last := own];
        return;
      }
      ok := Reserve(1, granted);
      if !ok {
        return;
      }
      if m.count == 0 {
        grown := m.(first := |marks|);
      } else {
        assert m.first + m.count == |marks| && marks[|marks| - 1].at < own.at;
      }
      marks := marks + [own];
      grown := grown.(count := m.count + 1);
    }

    /** The `length` bytes of `owner` from `from` on, as a map of their own. */
    method Adopt(owner: Map, m: Map, from: int, length: int) returns (slice: Map, ok: bool)
      requires owner.count > 0 ==> Runs(marks, owner)
      ensures ok <==> owner.count > 0 && length > 0
      ensures slice == if ok then Slice(marks, owner, from, length) else m
    {
      if owner.count == 0 || length <= 0 {
        return m, false;
      }
      var o := from + owner.offset;
      var first, _ := MarkNear(owner, o, owner.first);
      var last, _ := MarkNear(owner, o + length - 1, owner.first);
      RunOrder(marks, owner.first, owner.count, o, o + length - 1);
      return Map(first, last - first + 1, o), true;
    }

    /** The runs of `length` bytes of `owner` from `from` on put at the end of `m`, from its byte `offset` on. */
    method AppendMarks(owner: Map, m: Map, from: int, length: int, offset: int, granted: bool) returns (grown: Map, ok: bool)
      requires AllWide(marks) && Open(marks, m, offset + m.offset) && Lone(marks, owner, m, offset + m.offset)
      requires owner.count > 0 ==> Runs(marks, owner) && marks[owner.first].at <= from + owner.offset
      modifies this
      ensures length <= 0 ==> ok && marks == old(marks) && grown == m
      ensures length > 0 && owner.count == 0 ==> !ok && marks == old(marks) && grown == m
      ensures ok && length > 0 ==> Copied(old(marks), owner, from, marks, grown, offset, length)
      ensures ok && length > 0 ==> FrontKept(old(marks), m, offset + m.offset, marks, grown)
      ensures ok && length > 0 ==>
                && Grew(old(marks), m, marks, grown, true) && AllWide(marks) && Runs(marks, grown)
                && grown.offset == m.offset && End(marks, grown) <= offset + m.offset + length
                && marks[grown.first].at <= offset + m.offset
      ensures ok && length > 0 && Follows(old(marks), owner, m, from, length, offset) ==> Sourced(marks, grown, offset + length)
      ensures OthersKept(old(marks), m, offset + m.offset, marks) && Spares(old(marks), m, marks)
      ensures OthersForward(old(marks), m, marks)
      ensures granted && owner.count > 0 && Roomy(old(marks), m, owner.count) ==> ok
      ensures |marks| <= Most(old(marks), m, owner.count) && (|old(marks)| <= INT32_MAX ==> |marks| <= INT32_MAX)
    {
      hide Roomy, Most, Grew, Put, PutMap, At, RunAt, Copied, OthersKept, FrontKept, Recut, Moved, MovedMap, Copying, Reach, Follows, Sourced, OthersForward;
      ghost var was := marks;
      OthersStart(was, m, offset + m.offset);
      ForwardStays(was, m, was);
      MostHolds(was, m, owner.count);
      grown, ok := m, true;
      if length <= 0 {
        return;
      }
      if owner.count == 0 {
        return m, false;
      }
      var o := from + owner.offset;
      var first, _ := MarkNear(owner, o, owner.first);
      var last, _ := MarkNear(owner, o + length - 1, owner.first);
      RunOrder(marks, owner.first, owner.count, o, o + length - 1);
      CopyStarts(was, owner, m, from, length, offset, first, last);
      ReachEnds(was, owner, m, from, length, offset, first, last);
      FewerRoomy(was, m, owner.count, last + 1 - first);
      grown, ok := CopyRuns(owner, m, from, length, offset, first, last, granted);
      if ok {
        CopyEnds(was, owner, m, from, length, offset, first, last, marks, grown);
      }
      ForwardStays(was, m, marks);
    }

    /** Runs `first` to `last` of `owner` put at the end of `m`, each cut to the bytes appended. */
    method CopyRuns(owner: Map, m: Map, from: int, length: int, offset: int, first: nat, last: nat, granted: bool)
      returns (grown: Map, ok: bool)
      requires Sliced(marks, owner, from, length, first, last) && Open(marks, m, offset + m.offset)
      requires Lone(marks, owner, m, offset + m.offset)
      requires Copying(marks, owner, m, from, length, offset, first, last, marks, m, first)
      requires Follows(marks, owner, m, from, length, offset) ==>
                 Sourced(marks, m, offset + Reach(marks, first, last, from + owner.offset, length))
      modifies this
      ensures ok ==> Copying(old(marks), owner, m, from, length, offset, first, last, marks, grown, last + 1)
      ensures ok && Follows(old(marks), owner, m, from, length, offset) ==>
                Sourced(marks, grown, offset + Reach(old(marks), last + 1, last, from + owner.offset, length))
      ensures OthersKept(old(marks), m, offset + m.offset, marks) && Spares(old(marks), m, marks)
      ensures granted && Roomy(old(marks), m, last + 1 - first) ==> ok
      ensures |marks| <= Most(old(marks), m, last + 1 - first) && (|old(marks)| <= INT32_MAX ==> |marks| <= INT32_MAX)
    {
      hide OthersForward, Step, Spares, Lone, End, AllWide, Roomy, Most, Grew, Put, PutMap, At, RunAt, Copied, OthersKept, FrontKept, Recut, Moved, MovedMap, Copying, Reach, Follows, Sourced;
      ghost var was := marks;
      var o := from + owner.offset;
      grown, ok := m, true;
      MostHolds(was, m, last + 1 - first);
      for i := first to last + 1
        invariant Copying(was, owner, m, from, length, offset, first, last, marks, grown, i)
        invariant Follows(was, owner, m, from, length, offset) ==> Sourced(marks, grown, offset + Reach(was, i, last, o, length))
        invariant Most(marks, grown, last + 1 - i) <= Most(was, m, last + 1 - first) && |marks| <= Most(was, m, last + 1 - first)
        invariant |was| <= INT32_MAX ==> |marks| <= INT32_MAX
      {
        CopyReads(was, owner, m, from, length, offset, first, last, marks, grown, i);
        if Follows(was, owner, m, from, length, offset) {
          StepSourced(was, owner, m, from, length, offset, first, last, marks, grown, i);
        }
        StepDone(was, owner, m, from, length, offset, first, last, marks, grown, i);
        CopyStops(was, owner, m, from, length, offset, first, last, marks, grown, i);
        var start := Start(marks[i], o);
        RelativeStep(was, owner, from, offset, m.offset, i);
        RoomyNext(marks, grown, Step(was, owner, from, offset + m.offset, i), last + 1 - i);
        MostHolds(marks, grown, last + 1 - i);
        grown, ok := AppendMark(grown, Recut(marks[i], start, offset + start - o), granted);
        if !ok {
          return;
        }
      }
      CopyStops(was, owner, m, from, length, offset, first, last, marks, grown, last + 1);
    }

    /** Where content byte `x` of `m` comes from. */
    method Place(m: Map, x: int) returns (spot: Option<Spot>)
      requires m.count > 0 ==> Runs(marks, m)
      ensures spot == if m.count <= 0 || x < 0 then None else Some(At(marks, m, x))
    {
      if m.count <= 0 || x < 0 {
        return None;
      }
      var i, _ := MarkNear(m, x + m.offset, m.first);
      spot := Some(SpotOf(marks[i], x + m.offset));
    }

    /** Both ends of the bytes `from` to `to` of `m`, each looked for from the run before it, the first from `cursor`. */
    method Span(m: Map, from: int, to: int, cursor: nat) returns (span: Span, moved: nat, probes: nat)
      requires m.count > 0 ==> Runs(marks, m)
      ensures m.count == 0 ==> span == NO_SPAN && moved == cursor
      ensures m.count > 0 && from >= 0 ==>
                span.start == Some(At(marks, m, from).start) && span.first == RunAt(marks, m.first, m.count, from + m.offset)
      ensures m.count > 0 && to >= 0 ==>
                span.end == Some(At(marks, m, to).end) && span.last == RunAt(marks, m.first, m.count, to + m.offset)
      ensures from < 0 ==> span.start == None
      ensures to < 0 ==> span.end == None
      ensures moved == if m.count > 0 && to >= 0 then span.last else if m.count > 0 && from >= 0 then span.first else cursor
      ensures probes <= 2 * (2 + Halvings(m.count))
      ensures m.count > 0 && from >= 0 && to >= 0 && span.first == span.last == Hinted(m, cursor) ==> probes == 2
    {
      hide SpotOf, RunAt, Halvings, Halved;
      span, moved, probes := NO_SPAN, cursor, 0;
      if m.count <= 0 {
        return;
      }
      if from >= 0 {
        var offset := from + m.offset;
        var first, probed := MarkNear(m, offset, moved);
        var mark := marks[first];
        span := span.(first := first, start := Some(SpotOf(mark, offset).start));
        probes, moved := probed, first;
      }
      if to >= 0 {
        var offset := to + m.offset;
        var last, probed := MarkNear(m, offset, moved);
        var mark := marks[last];
        span := span.(last := last, end := Some(SpotOf(mark, offset).end));
        probes, moved := probes + probed, last;
      }
    }

    /** `cut` bytes cut off the front of a text, leaving `remaining`. */
    method Rebase(m: Map, cut: int, remaining: int) returns (left: Map)
      requires m.count > 0 ==> Runs(marks, m)
      ensures m.count == 0 || cut <= 0 ==> left == m
      ensures m.count > 0 && cut > 0 && remaining <= 0 ==> left == m.(count := 0, offset := 0)
      ensures m.count > 0 && cut > 0 && remaining > 0 ==>
                Views(marks, left, m, cut, remaining)
    {
      if m.count <= 0 || cut <= 0 {
        return m;
      }
      hide Slice, RunAt, At, Views;
      if remaining <= 0 {
        return m.(count := 0, offset := 0);
      }
      var ok;
      left, ok := Adopt(m, m, cut, remaining);
      SliceViews(marks, m, cut, remaining);
    }
  }

  /** How often `n` places halve until one is left. */
  function Halvings(n: nat): nat
  {
    if n <= 1 then 0 else 1 + Halvings((n + 1) / 2)
  }

  /** How often they must at least. */
  function Halved(n: nat): nat
  {
    if n <= 1 then 0 else 1 + Halved(n / 2)
  }

  lemma HalvesOnce(n: nat)
    ensures n > 1 ==> Halvings(n) == 1 + Halvings((n + 1) / 2) && Halved(n) == 1 + Halved(n / 2)
  {
  }

  lemma HalvedNone()
    ensures Halved(0) == Halved(1) == Halvings(0) == Halvings(1) == 0
  {
  }

  lemma {:induction false} HalvedGrow(a: nat, b: nat)
    requires a <= b
    ensures Halved(a) <= Halved(b)
  {
    if a > 1 {
      HalvedGrow(a / 2, b / 2);
    }
  }

  /** The run a hint names, or the map's first when it names none of it. */
  function Hinted(m: Map, hint: int): int
  {
    if m.first <= hint <= m.first + m.count - 1 then hint else m.first
  }

  lemma {:induction false} HalvingsGrow(a: nat, b: nat)
    requires a <= b
    ensures Halvings(a) <= Halvings(b)
  {
    if a > 1 {
      HalvingsGrow((a + 1) / 2, (b + 1) / 2);
    }
  }
}
