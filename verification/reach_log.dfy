/** What readings reached: a log in order of where they start, with the furthest end of each of its prefixes. */
module ReachLogs {
  import opened Basics

  /** A reading: where it starts and the end it read to. */
  datatype Reading = Reading(start: int, end: int)

  predicate Ordered(log: seq<Reading>)
  {
    forall i, j :: 0 <= i < j < |log| ==> log[i].start <= log[j].start
  }

  // ---------- Sorting ----------

  function Insert(log: seq<Reading>, x: Reading): seq<Reading>
  {
    if log == [] || log[|log| - 1].start <= x.start then log + [x]
    else Insert(log[..|log| - 1], x) + [log[|log| - 1]]
  }

  /** A log in order, as one sort leaves it. */
  function Inserted(log: seq<Reading>): seq<Reading>
  {
    if log == [] then [] else Insert(Inserted(log[..|log| - 1]), log[|log| - 1])
  }

  lemma {:induction false} InsertOrders(log: seq<Reading>, x: Reading)
    requires Ordered(log)
    ensures Ordered(Insert(log, x)) && multiset(Insert(log, x)) == multiset(log) + multiset{x}
    ensures |Insert(log, x)| == |log| + 1
  {
    hide Insert;
    InsertStep(log, x);
    if log != [] && log[|log| - 1].start > x.start {
      var front, last := log[..|log| - 1], log[|log| - 1];
      InsertOrders(front, x);
      assert log == front + [last];
      InsertWithin(front, x, last.start);
    }
  }

  lemma InsertStep(log: seq<Reading>, x: Reading)
    ensures Insert(log, x) == if log == [] || log[|log| - 1].start <= x.start then log + [x]
                              else Insert(log[..|log| - 1], x) + [log[|log| - 1]]
  {
  }

  lemma {:induction false} InsertWithin(log: seq<Reading>, x: Reading, most: int)
    requires x.start <= most && forall i :: 0 <= i < |log| ==> log[i].start <= most
    ensures forall i :: 0 <= i < |Insert(log, x)| ==> Insert(log, x)[i].start <= most
  {
    if log != [] && log[|log| - 1].start > x.start {
      InsertWithin(log[..|log| - 1], x, most);
    }
  }

  lemma {:induction false} InsertedOrders(log: seq<Reading>)
    ensures Ordered(Inserted(log)) && multiset(Inserted(log)) == multiset(log) && |Inserted(log)| == |log|
  {
    if log != [] {
      InsertedOrders(log[..|log| - 1]);
      InsertOrders(Inserted(log[..|log| - 1]), log[|log| - 1]);
      assert log == log[..|log| - 1] + [log[|log| - 1]];
    }
  }

  /** A sort that need not keep the order of readings that start together: any order of theirs may come of it. */
  method Sort(log: seq<Reading>) returns (sorted: seq<Reading>)
    ensures Ordered(sorted) && multiset(sorted) == multiset(log) && |sorted| == |log|
  {
    sorted := *;
    if !Ordered(sorted) || multiset(sorted) != multiset(log) {
      sorted := Inserted(log);
      InsertedOrders(log);
    }
    SameSize(sorted, log);
  }

  lemma SameSize(a: seq<Reading>, b: seq<Reading>)
    requires multiset(a) == multiset(b)
    ensures |a| == |b|
  {
    assert |multiset(a)| == |a| && |multiset(b)| == |b|;
  }

  // ---------- Merging from the back ----------

  /** Two logs in order as one: of readings that start together, those of the first come first. */
  ghost function Merge(front: seq<Reading>, rest: seq<Reading>): seq<Reading>
    decreases |front| + |rest|
  {
    if rest == [] then front
    else if front != [] && front[|front| - 1].start > rest[|rest| - 1].start
    then Merge(front[..|front| - 1], rest) + [front[|front| - 1]]
    else Merge(front, rest[..|rest| - 1]) + [rest[|rest| - 1]]
  }

  /** A MERGE KEEPS EVERY READING. */
  lemma {:induction false} MergeKeeps(front: seq<Reading>, rest: seq<Reading>)
    ensures multiset(Merge(front, rest)) == multiset(front) + multiset(rest)
    ensures |Merge(front, rest)| == |front| + |rest|
    decreases |front| + |rest|
  {
    hide Merge;
    if rest == [] {
      MergeNone(front, rest);
    } else {
      MergeStep(front, rest);
      if front != [] && front[|front| - 1].start > rest[|rest| - 1].start {
        MergeKeeps(front[..|front| - 1], rest);
        assert front == front[..|front| - 1] + [front[|front| - 1]];
      } else {
        MergeKeeps(front, rest[..|rest| - 1]);
        assert rest == rest[..|rest| - 1] + [rest[|rest| - 1]];
      }
    }
  }

  lemma {:induction false} MergeWithin(front: seq<Reading>, rest: seq<Reading>, most: int)
    requires forall i :: 0 <= i < |front| ==> front[i].start <= most
    requires forall i :: 0 <= i < |rest| ==> rest[i].start <= most
    ensures forall i :: 0 <= i < |Merge(front, rest)| ==> Merge(front, rest)[i].start <= most
    decreases |front| + |rest|
  {
    if rest != [] {
      if front != [] && front[|front| - 1].start > rest[|rest| - 1].start {
        MergeWithin(front[..|front| - 1], rest, most);
      } else {
        MergeWithin(front, rest[..|rest| - 1], most);
      }
    }
  }

  /** and puts them in order. */
  lemma {:induction false} MergeOrders(front: seq<Reading>, rest: seq<Reading>)
    requires Ordered(front) && Ordered(rest)
    ensures Ordered(Merge(front, rest))
    decreases |front| + |rest|
  {
    if rest != [] {
      if front != [] && front[|front| - 1].start > rest[|rest| - 1].start {
        MergeOrders(front[..|front| - 1], rest);
        MergeWithin(front[..|front| - 1], rest, front[|front| - 1].start);
      } else {
        MergeOrders(front, rest[..|rest| - 1]);
        MergeWithin(front, rest[..|rest| - 1], rest[|rest| - 1].start);
      }
    }
  }

  /** No reading of the front that starts no later than the least of the rest moves. */
  lemma {:induction false} MergeStays(front: seq<Reading>, rest: seq<Reading>, low: nat)
    requires Ordered(rest) && rest != [] && low <= |front|
    requires forall i :: 0 <= i < low ==> front[i].start <= rest[0].start
    ensures |Merge(front, rest)| == |front| + |rest| && Merge(front, rest)[..low] == front[..low]
    decreases |front| + |rest|
  {
    hide Merge;
    MergeKeeps(front, rest);
    MergeStep(front, rest);
    if front != [] && front[|front| - 1].start > rest[|rest| - 1].start {
      var less := front[..|front| - 1];
      MergeStays(less, rest, low);
      assert less[..low] == front[..low];
    } else {
      var less := rest[..|rest| - 1];
      MergeKeeps(front, less);
      if less == [] {
        MergeNone(front, less);
      } else {
        MergeStays(front, less, low);
      }
    }
  }

  lemma MergeStep(front: seq<Reading>, rest: seq<Reading>)
    requires rest != []
    ensures front != [] && front[|front| - 1].start > rest[|rest| - 1].start ==>
              Merge(front, rest) == Merge(front[..|front| - 1], rest) + [front[|front| - 1]]
    ensures front == [] || front[|front| - 1].start <= rest[|rest| - 1].start ==>
              Merge(front, rest) == Merge(front, rest[..|rest| - 1]) + [rest[|rest| - 1]]
  {
  }

  lemma MergeNone(front: seq<Reading>, rest: seq<Reading>)
    requires rest == []
    ensures Merge(front, rest) == front
  {
  }

  /** Where a merge in place stands: the first `left` of the front and the first `right` of the rest are to go. */
  ghost predicate Merging(first: seq<Reading>, rest: seq<Reading>, log: seq<Reading>, left: nat, right: nat)
  {
    && left <= |first| && right <= |rest| && |log| == |first| + |rest| && log[..left] == first[..left]
    && Merge(first[..left], rest[..right]) + log[left + right..] == Merge(first, rest)
  }

  lemma MergingStarts(first: seq<Reading>, rest: seq<Reading>)
    ensures Merging(first, rest, first + rest, |first|, |rest|)
  {
    hide Merge;
    var log := first + rest;
    assert first[..|first|] == first && rest[..|rest|] == rest && log[|first| + |rest|..] == [] && log[..|first|] == first;
    var m := Merge(first, rest);
    assert m + [] == m;
  }

  lemma MergingEnds(first: seq<Reading>, rest: seq<Reading>, log: seq<Reading>, left: nat)
    requires Merging(first, rest, log, left, 0)
    ensures log == Merge(first, rest)
  {
    hide Merge;
    MergeNone(first[..left], rest[..0]);
    assert log == log[..left] + log[left..];
  }

  /** The last of the front goes to its place. */
  lemma FrontMerged(first: seq<Reading>, rest: seq<Reading>, log: seq<Reading>, left: nat, right: nat)
    requires Merging(first, rest, log, left, right) && left > 0 && right > 0 && log[left - 1].start > rest[right - 1].start
    ensures log[left - 1] == first[left - 1]
    ensures Merging(first, rest, log[left + right - 1 := log[left - 1]], left - 1, right)
  {
    hide Merge;
    var front, at := first[..left], left + right - 1;
    assert log[..left][left - 1] == log[left - 1] && front[left - 1] == first[left - 1];
    MergeStep(front, rest[..right]);
    assert front[..left - 1] == first[..left - 1] && rest[..right][right - 1] == rest[right - 1];
    var more := log[at := log[left - 1]];
    assert more[at..] == [first[left - 1]] + log[at + 1..];
    assert more[..left - 1] == log[..left][..left - 1] == first[..left - 1];
    MergeTail(Merge(first[..left - 1], rest[..right]), first[left - 1], log[at + 1..]);
  }

  /** The last of the rest does. */
  lemma RestMerged(first: seq<Reading>, rest: seq<Reading>, log: seq<Reading>, left: nat, right: nat)
    requires Merging(first, rest, log, left, right) && right > 0 && (left > 0 ==> log[left - 1].start <= rest[right - 1].start)
    ensures left > 0 ==> log[left - 1] == first[left - 1]
    ensures Merging(first, rest, log[left + right - 1 := rest[right - 1]], left, right - 1)
  {
    hide Merge;
    var front, back, at := first[..left], rest[..right], left + right - 1;
    assert left > 0 ==> log[..left][left - 1] == log[left - 1] && front[left - 1] == first[left - 1];
    MergeStep(front, back);
    assert back[..right - 1] == rest[..right - 1] && back[right - 1] == rest[right - 1];
    var more := log[at := rest[right - 1]];
    assert more[at..] == [rest[right - 1]] + log[at + 1..];
    assert more[..left] == log[..left];
    MergeTail(Merge(front, rest[..right - 1]), rest[right - 1], log[at + 1..]);
  }

  lemma MergeTail(merged: seq<Reading>, x: Reading, tail: seq<Reading>)
    ensures (merged + [x]) + tail == merged + ([x] + tail)
  {
  }

  // ---------- The furthest ends ----------

  /** The furthest end of a log's readings, none before the text. */
  ghost function Furthest(log: seq<Reading>): int
  {
    if log == [] then 0
    else
      var before := Furthest(log[..|log| - 1]);
      if log[|log| - 1].end > before then log[|log| - 1].end else before
  }

  ghost predicate AreFurthest(log: seq<Reading>, furthest: seq<int>, count: nat)
  {
    && count <= |log| && count <= |furthest|
    && forall i :: 0 <= i < count ==> furthest[i] == Furthest(log[..i + 1])
  }

  lemma {:induction false} FurthestOf(log: seq<Reading>, point: nat)
    ensures Furthest(log) > point <==> exists i :: 0 <= i < |log| && log[i].end > point
  {
    if log != [] {
      var front := log[..|log| - 1];
      FurthestOf(front, point);
      if i :| 0 <= i < |log| && log[i].end > point {
        assert i < |front| ==> front[i].end > point;
      }
      if i :| 0 <= i < |front| && front[i].end > point {
        assert log[i].end > point;
      }
    }
  }

  /** What a log's first readings say of their furthest ends stays while they do. */
  lemma FurthestStays(was: seq<Reading>, log: seq<Reading>, furthest: seq<int>, count: nat, kept: nat)
    requires AreFurthest(was, furthest, count) && kept <= count && kept <= |log| && log[..kept] == was[..kept]
    ensures AreFurthest(log, furthest, kept)
  {
    forall i | 0 <= i < kept
      ensures furthest[i] == Furthest(log[..i + 1])
    {
      assert log[..i + 1] == log[..kept][..i + 1] == was[..i + 1];
    }
  }

  /** Furthest ends `ends` of a log's first prefixes, carried on to all of them. */
  ghost function Ends(log: seq<Reading>, ends: seq<int>): seq<int>
    decreases |log| - |ends|
  {
    if |ends| >= |log| then ends
    else
      var before, x := if ends == [] then 0 else ends[|ends| - 1], log[|ends|];
      Ends(log, ends + [if x.end > before then x.end else before])
  }

  /** They are the log's exactly when those carried on were. */
  lemma {:induction false} EndsAre(log: seq<Reading>, ends: seq<int>)
    requires |ends| <= |log|
    ensures |Ends(log, ends)| == |log| && Ends(log, ends)[..|ends|] == ends
    ensures AreFurthest(log, Ends(log, ends), |log|) <==> AreFurthest(log, ends, |ends|)
    decreases |log| - |ends|
  {
    hide AreFurthest, Furthest;
    if |ends| < |log| {
      var n := |ends|;
      var end := if ends == [] then 0 else ends[n - 1];
      var next := if log[n].end > end then log[n].end else end;
      EndsAre(log, ends + [next]);
      assert Ends(log, ends)[..n] == Ends(log, ends)[..n + 1][..n] == ends;
      EndOn(log, ends, next);
    } else {
      assert log[..|log|] == log;
    }
  }

  lemma EndOn(log: seq<Reading>, ends: seq<int>, next: int)
    requires |ends| < |log|
    requires var end := if ends == [] then 0 else ends[|ends| - 1]; next == if log[|ends|].end > end then log[|ends|].end else end
    ensures AreFurthest(log, ends + [next], |ends| + 1) <==> AreFurthest(log, ends, |ends|)
  {
    hide Furthest;
    var n := |ends|;
    if AreFurthest(log, ends, n) {
      FurthestFrom(log, ends, n);
      assert ends[..n] == ends;
      FurthestOn(log, ends, n);
    } else {
      var i :| 0 <= i < n && ends[i] != Furthest(log[..i + 1]);
      assert (ends + [next])[i] == ends[i];
    }
  }

  /** Nothing past the first `known` of a log starts before one of them. */
  ghost predicate NoneBefore(log: seq<Reading>, known: nat)
  {
    forall i, j :: 0 <= i < known <= j < |log| ==> log[i].start <= log[j].start
  }

  /** A permutation in order that keeps the first `known` in place has nothing before them. */
  lemma KeptOnly(was: seq<Reading>, log: seq<Reading>, known: nat)
    requires known <= |was| == |log| && multiset(was) == multiset(log) && Ordered(log) && log[..known] == was[..known]
    ensures NoneBefore(was, known)
  {
    var rest := log[known..];
    RestKept(was, log, known);
    forall i, j | 0 <= i < known <= j < |was|
      ensures was[i].start <= was[j].start
    {
      assert was[known..][j - known] == was[j] && was[j] in multiset(rest);
      var k :| 0 <= k < |rest| && rest[k] == was[j];
      assert rest[k] == log[known + k] && log[..known][i] == was[..known][i];
    }
  }

  lemma RestKept(was: seq<Reading>, log: seq<Reading>, known: nat)
    requires known <= |was| == |log| && multiset(was) == multiset(log) && log[..known] == was[..known]
    ensures multiset(was[known..]) == multiset(log[known..])
  {
    var kept := multiset(was[..known]);
    assert was == was[..known] + was[known..] && log == was[..known] + log[known..];
    assert multiset(was) == kept + multiset(was[known..]) && multiset(log) == kept + multiset(log[known..]);
    assert multiset(was[known..]) == multiset(was) - kept;
  }

  /** The least of the rest of a log starts no later than the first of the rest did, and is one of them. */
  lemma LeastOfRest(was: seq<Reading>, upto: nat, sorted: seq<Reading>)
    requires upto < |was| && Ordered(sorted) && multiset(sorted) == multiset(was[upto..]) && sorted != []
    ensures sorted[0].start <= was[upto].start && exists j :: upto <= j < |was| && was[j] == sorted[0]
  {
    assert was[upto..][0] in multiset(sorted) && sorted[0] in multiset(was[upto..]);
    var k :| 0 <= k < |sorted| && sorted[k] == was[upto];
    var j :| 0 <= j < |was[upto..]| && was[upto..][j] == sorted[0];
    assert was[upto + j] == sorted[0];
  }

  lemma LowPast(was: seq<Reading>, known: nat, upto: nat, sorted: seq<Reading>, low: nat)
    requires known <= upto < |was| && sorted != [] && (exists j :: upto <= j < |was| && was[j] == sorted[0])
    requires NoneBefore(was, known) && low <= upto && (low < upto ==> was[low].start > sorted[0].start)
    ensures known <= low
  {
  }

  lemma Unordered(log: seq<Reading>, at: nat)
    requires 0 < at < |log| && log[at - 1].start > log[at].start
    ensures !Ordered(log)
  {
  }

  /** After the ends' storage was refused the sort is tried again, and a log in order moves nothing: the ends of the
      first `known` stay as they were, though others are there now, and a search of them misses a reading that spans. */
  lemma RetryMisses()
    ensures var known, noted := Reading(10, 20), Reading(5, 100);
            var was, log, ends := [known, noted], [noted, known], Ends([noted, known], [20]);
            && AreFurthest(was, [20], 1) && !NoneBefore(was, 1) && Ordered(log) && multiset(log) == multiset(was)
            && ends == [20, 20] && IsSpanned(log, 50) && !AreFurthest(log, ends, 2)
  {
    var was, log := [Reading(10, 20), Reading(5, 100)], [Reading(5, 100), Reading(10, 20)];
    assert was[..1] == [Reading(10, 20)] && log[..0 + 1] == [Reading(5, 100)];
    assert Ends(log, [20]) == Ends(log, [20] + [20]) == [20, 20];
    assert was[0].start > was[1].start;
    assert Spans(log, 50, 0);
    var ends := Ends(log, [20]);
    NotFurthest(log, ends, 2, 0);
  }

  lemma NotFurthest(log: seq<Reading>, furthest: seq<int>, count: nat, i: nat)
    requires i < count <= |log| && count <= |furthest| && furthest[i] != Furthest(log[..i + 1])
    ensures !AreFurthest(log, furthest, count)
  {
  }

  // ---------- The log ----------

  /** A reading of `log` that spans `point`. */
  ghost predicate Spans(log: seq<Reading>, point: nat, i: int)
  {
    0 <= i < |log| && log[i].start < point < log[i].end
  }

  lemma OneOrdered(log: seq<Reading>, known: nat, upto: nat)
    requires known <= |log| && Ordered(log[..known]) && upto == if known > 1 then known else 1
    ensures upto <= |log| ==> Ordered(log[..upto])
    ensures |log| <= upto ==> Ordered(log)
  {
    assert known == |log| ==> log[..known] == log;
  }

  lemma OrderedOn(log: seq<Reading>, upto: nat)
    requires 0 < upto < |log| && Ordered(log[..upto]) && log[upto - 1].start <= log[upto].start
    ensures Ordered(log[..upto + 1])
  {
    assert forall i :: 0 <= i < upto ==> log[..upto][i] == log[i];
    assert forall i :: 0 <= i < upto ==> log[i].start <= log[..upto][upto - 1].start;
  }

  lemma OrderedAt(log: seq<Reading>, i: nat)
    requires Ordered(log) && i < |log|
    ensures forall j :: 0 <= j < i ==> log[j].start <= log[i].start
    ensures forall j :: i < j < |log| ==> log[i].start <= log[j].start
  {
  }

  /** The first prefix whose furthest end is past a point ends with the first reading that reads past it. */
  lemma FirstReaches(log: seq<Reading>, furthest: seq<int>, point: nat, low: nat)
    requires AreFurthest(log, furthest, |log|) && low <= |log|
    requires low > 0 ==> furthest[low - 1] <= point
    requires low < |log| ==> furthest[low] > point
    ensures forall i :: 0 <= i < low ==> log[i].end <= point
    ensures low < |log| ==> log[low].end > point
  {
    if low > 0 {
      FurthestOf(log[..low], point);
      assert forall i :: 0 <= i < low ==> log[..low][i] == log[i];
    }
    if low < |log| {
      assert log[..low + 1][..low] == log[..low];
      assert low > 0 ==> furthest[low - 1] == Furthest(log[..low]);
      assert low == 0 ==> log[..low] == [];
      assert furthest[low] == Furthest(log[..low + 1]);
    }
  }

  ghost predicate IsSpanned(log: seq<Reading>, point: nat)
  {
    exists i :: Spans(log, point, i)
  }

  /** The least start of a reading that spans `point`. */
  ghost predicate IsLeast(log: seq<Reading>, point: nat, start: int)
  {
    && (exists i :: Spans(log, point, i) && log[i].start == start)
    && forall i :: Spans(log, point, i) ==> start <= log[i].start
  }

  /** The first reading that reads past a point, when it starts before it, spans it, and none that starts less does. */
  lemma FirstSpans(log: seq<Reading>, point: nat, low: nat)
    requires Ordered(log) && low < |log| && log[low].end > point && forall i :: 0 <= i < low ==> log[i].end <= point
    ensures IsSpanned(log, point) <==> log[low].start < point
    ensures log[low].start < point ==> IsLeast(log, point, log[low].start)
  {
    if log[low].start < point {
      assert Spans(log, point, low);
    }
    forall i | Spans(log, point, i)
      ensures log[low].start <= log[i].start
    {
      assert i >= low;
    }
  }

  /** No reading spans a point when those that start before it end at or before it. */
  lemma NoneSpans(log: seq<Reading>, point: nat, past: nat)
    requires Ordered(log) && past <= |log| && (past < |log| ==> log[past].start >= point)
    requires forall i :: 0 <= i < past ==> log[i].end <= point
    ensures !IsSpanned(log, point)
  {
  }

  lemma JoinedAt(front: seq<Reading>, back: seq<Reading>)
    requires Ordered(front) && Ordered(back) && Apart(front, back)
    ensures Ordered(front + back)
    ensures forall i :: 0 <= i < |front| ==> (front + back)[i] == front[i]
    ensures forall k :: 0 <= k < |back| ==> (front + back)[|front| + k] == back[k]
  {
    var log := front + back;
    forall i, j | 0 <= i < j < |log|
      ensures log[i].start <= log[j].start
    {
      if i < |front| <= j {
        assert StartsBy(front, back, i, j - |front|);
      }
    }
  }

  /** Everything the front holds starts no later than everything the back does. */
  ghost predicate Apart(front: seq<Reading>, back: seq<Reading>)
  {
    forall i, k :: 0 <= i < |front| && 0 <= k < |back| ==> StartsBy(front, back, i, k)
  }

  ghost predicate StartsBy(front: seq<Reading>, back: seq<Reading>, i: int, k: int)
    requires 0 <= i < |front| && 0 <= k < |back|
  {
    front[i].start <= back[k].start
  }

  /** A front put in another order is as far apart. */
  lemma ApartStays(was: seq<Reading>, front: seq<Reading>, back: seq<Reading>)
    requires Apart(was, back) && multiset(front) == multiset(was)
    ensures Apart(front, back)
  {
    forall i, k | 0 <= i < |front| && 0 <= k < |back|
      ensures StartsBy(front, back, i, k)
    {
      assert front[i] in multiset(was);
      var j :| 0 <= j < |was| && was[j] == front[i];
      assert StartsBy(was, back, j, k);
    }
  }

  /** Every reading starts at or before a place. */
  ghost predicate StartBy(log: seq<Reading>, place: int)
  {
    forall i :: 0 <= i < |log| ==> log[i].start <= place
  }

  lemma ApartBy(front: seq<Reading>, back: seq<Reading>)
    requires Ordered(back)
    ensures Apart(front, back) <==> back == [] || StartBy(front, back[0].start)
  {
    if Apart(front, back) && back != [] {
      forall i | 0 <= i < |front|
        ensures front[i].start <= back[0].start
      {
        assert StartsBy(front, back, i, 0);
      }
    }
  }

  /** A log in order parted anywhere is two in order and apart. */
  lemma PartedAt(log: seq<Reading>, at: nat)
    requires Ordered(log) && at <= |log|
    ensures Ordered(log[..at]) && Ordered(log[at..]) && Apart(log[..at], log[at..])
  {
    forall i, k | 0 <= i < at && 0 <= k < |log[at..]|
      ensures StartsBy(log[..at], log[at..], i, k)
    {
      assert log[i].start <= log[at + k].start;
    }
  }

  lemma DropOrdered(back: seq<Reading>, gone: nat)
    requires Ordered(back) && gone <= |back|
    ensures Ordered(back[gone..])
  {
  }

  lemma JoinedStarts(before: seq<Reading>, noted: seq<Reading>, place: int, most: int)
    requires (forall i :: 0 <= i < |before| ==> before[i].start < place) && place <= most && StartBy(noted, most)
    ensures StartBy(before + noted, most)
  {
  }

  /** The log an edit leaves: of the old one the first `kept`, which start before the reading did, then what it noted,
      and from the old one's reading `from` on those it took back, moved. */
  ghost predicate Edited(log: seq<Reading>, noted: seq<Reading>, front: seq<Reading>, back: seq<Reading>, place: int,
                         taken: Option<nat>, delta: int, kept: nat, from: nat)
  {
    && kept <= from <= |log| && front == log[..kept] + noted && |back| == |log| - from
    && (forall i :: 0 <= i < kept ==> log[i].start < place)
    && (forall i :: kept <= i < |log| ==> log[i].start >= place)
    && (taken.None? ==> from == |log|)
    && (taken.Some? ==> forall i :: kept <= i < from ==> log[i].start < taken.value)
    && (taken.Some? ==> forall i :: from <= i < |log| ==> log[i].start >= taken.value)
    && forall k :: 0 <= k < |back| ==> back[k] == Moved(log[from + k], delta)
  }

  lemma EditedFrom(log: seq<Reading>, before: seq<Reading>, rest: seq<Reading>, noted: seq<Reading>, back: seq<Reading>,
                   place: int, taken: Option<nat>, delta: int, from: nat)
    requires log == before + rest && |before| <= from <= |log| && |back| == |log| - from
    requires (forall i :: 0 <= i < |before| ==> before[i].start < place) && forall k :: 0 <= k < |rest| ==> rest[k].start >= place
    requires taken.None? ==> back == []
    requires taken.Some? ==> forall k :: 0 <= k < from - |before| ==> rest[k].start < taken.value
    requires taken.Some? ==> forall k :: 0 <= k < |back| ==>
               back[k] == Moved(rest[from - |before| + k], delta) && back[k].start >= taken.value + delta
    ensures Edited(log, noted, before + noted, back, place, taken, delta, |before|, from)
  {
    if taken.Some? {
      forall i | from <= i < |log|
        ensures log[i].start >= taken.value
      {
        assert back[i - from].start >= taken.value + delta && log[i] == rest[i - |before|];
      }
    }
  }

  /** Where the reading of an edit stopped, no reading of the log spans, when none spanned where it began and none it
      noted does. */
  lemma Unspanned(before: seq<Reading>, rest: seq<Reading>, noted: seq<Reading>, back: seq<Reading>, place: int, point: int)
    requires place >= 0 && point >= place && !IsSpanned(before + rest, place) && !IsSpanned(noted, point)
    requires forall i :: 0 <= i < |before| ==> before[i].start < place
    requires forall k :: 0 <= k < |back| ==> back[k].start >= point
    ensures !IsSpanned(before + noted + back, point)
  {
    var log := before + noted + back;
    forall i | 0 <= i < |log|
      ensures !Spans(log, point, i)
    {
      if i < |before| {
        assert !Spans(before + rest, place, i);
      } else if i < |before| + |noted| {
        assert !Spans(noted, point, i - |before|);
      }
    }
  }

  // ---------- The back, measured from the text's end ----------

  /** A reading with its places measured from `end` back, or back to places of the text. */
  function Flip(x: Reading, end: int): (y: Reading)
    ensures y.start == end - x.start
  {
    Reading(end - x.start, end - x.end)
  }

  /** A reading `delta` further on. */
  function Moved(x: Reading, delta: int): Reading
  {
    Reading(x.start + delta, x.end + delta)
  }

  /** The readings of a back that stores the one nearest the front last, in order. */
  ghost function Told(stored: seq<Reading>, end: int): (log: seq<Reading>)
    ensures |log| == |stored|
  {
    seq(|stored|, k requires 0 <= k < |stored| => Flip(stored[|stored| - 1 - k], end))
  }

  lemma ToldPut(stored: seq<Reading>, x: Reading, end: int)
    ensures Told(stored + [Flip(x, end)], end) == [x] + Told(stored, end)
  {
    var more, log := stored + [Flip(x, end)], [x] + Told(stored, end);
    assert Flip(Flip(x, end), end) == x;
    forall k | 0 <= k < |log|
      ensures Told(more, end)[k] == log[k]
    {
    }
  }

  lemma ToldCut(stored: seq<Reading>, end: int, gone: nat)
    requires gone <= |stored|
    ensures Told(stored[..|stored| - gone], end) == Told(stored, end)[gone..]
  {
  }

  /** WHEN THE TEXT GROWS BY `delta` before them, the readings of the back are each `delta` on, none of them written. */
  lemma ToldShifts(stored: seq<Reading>, end: int, delta: int, k: nat)
    requires k < |stored|
    ensures var x := Told(stored, end)[k]; Told(stored, end + delta)[k] == Moved(x, delta)
  {
    var y := stored[|stored| - 1 - k];
    assert Told(stored, end)[k] == Flip(y, end) && Told(stored, end + delta)[k] == Flip(y, end + delta);
  }

  lemma ToldShiftsOrdered(stored: seq<Reading>, end: int, delta: int)
    requires Ordered(Told(stored, end))
    ensures Ordered(Told(stored, end + delta))
  {
    var was, now := Told(stored, end), Told(stored, end + delta);
    forall i, j | 0 <= i < j < |now|
      ensures now[i].start <= now[j].start
    {
      ToldShifts(stored, end, delta, i);
      ToldShifts(stored, end, delta, j);
      assert was[i].start <= was[j].start;
    }
  }

  /** The log: the readings before the focus, the furthest ends of its first `known` prefixes, and the readings from the
      focus on, each place of theirs measured back from `end`, the one nearest the focus last. */
  class ReachLog {
    var front: seq<Reading>
    var stored: seq<Reading>
    var end: int
    var furthest: seq<int>
    var known: nat

    ghost predicate Valid()
      reads this
    {
      && known <= |front| && Ordered(front[..known]) && AreFurthest(front, furthest, known)
      && Ordered(Back())
    }

    ghost function Back(): seq<Reading>
      reads this
    {
      Told(stored, end)
    }

    constructor ()
      ensures Valid() && front == [] && Back() == [] && Apart(front, Back())
    {
      front, stored, end, furthest, known := [], [], 0, [], 0;
    }

    /** Notes a reading, of the new text while an edit is read, whatever the back still holds of the old one: the log is
        one after it exactly when it was and the reading starts no later than the back. */
    method Note(start: int, end: int)
      requires Valid()
      modifies this`front
      ensures Valid() && front == old(front) + [Reading(start, end)]
      ensures Apart(front, Back()) <==> Apart(old(front), Back()) && (Back() == [] || start <= Back()[0].start)
    {
      hide Told, Furthest, Apart;
      ghost var was := front;
      ApartBy(was, Back());
      front := front + [Reading(start, end)];
      ApartBy(front, Back());
      assert front[..|was|] == was && front[|was|] == Reading(start, end);
      assert front[..known] == was[..known];
      FurthestStays(was, front, furthest, known, known);
    }

    /** Takes back what was noted past the first `count`. */
    method Unnote(count: nat)
      requires Valid() && known <= count <= |front|
      modifies this`front
      ensures Valid() && front == old(front)[..count]
    {
      hide Told, Furthest;
      ghost var was := front;
      front := front[..count];
      assert front[..known] == was[..known];
      FurthestStays(was, front, furthest, known, known);
    }

    /** The first of the front in order that starts at or past `place`. */
    method FrontFrom(place: int) returns (low: nat)
      requires Ordered(front)
      ensures low <= |front|
      ensures forall i :: 0 <= i < low ==> front[i].start < place
      ensures forall i :: low <= i < |front| ==> front[i].start >= place
    {
      var high := |front|;
      low := 0;
      while low < high
        invariant low <= high <= |front|
        invariant forall i :: 0 <= i < low ==> front[i].start < place
        invariant forall i :: high <= i < |front| ==> front[i].start >= place
      {
        var middle := low + (high - low) / 2;
        if front[middle].start < place {
          low := middle + 1;
        } else {
          high := middle;
        }
      }
    }

    /** The first of the back, from the focus, that does. */
    method BackFrom(place: int) returns (low: nat)
      requires Ordered(Back())
      ensures low <= |stored|
      ensures forall i :: 0 <= i < low ==> Back()[i].start < place
      ensures forall i :: low <= i < |stored| ==> Back()[i].start >= place
    {
      hide Told;
      var high := |stored|;
      low := 0;
      while low < high
        invariant low <= high <= |stored|
        invariant forall i :: 0 <= i < low ==> Back()[i].start < place
        invariant forall i :: high <= i < |stored| ==> Back()[i].start >= place
      {
        var middle := low + (high - low) / 2;
        ToldAt(middle);
        if end - stored[|stored| - 1 - middle].start < place {
          low := middle + 1;
        } else {
          high := middle;
        }
      }
    }

    /** THE FOCUS MOVED to `place`, in a text of `size` bytes: the log is the same, the readings that start before the
        place in its front and the others in its back, and of the furthest ends those of what did not leave stay. */
    method Move(place: int, size: int)
      requires Valid() && Ordered(front) && Apart(front, Back()) && (stored != [] ==> end == size)
      modifies this
      ensures Valid() && Ordered(front) && Apart(front, Back()) && end == size && front + Back() == old(front + Back())
      ensures forall i :: 0 <= i < |front| ==> front[i].start < place
      ensures forall k :: 0 <= k < |Back()| ==> Back()[k].start >= place
      ensures known == if old(known) < |front| then old(known) else |front|
      ensures furthest == old(furthest)
    {
      hide Valid, Ordered, AreFurthest, Apart, Told, Flip;
      ghost var was, back, had := front, Back(), known;
      ValidParts();
      JoinedAt(front, Back());
      NoneTold(stored, end, size);
      BackIs();
      end := size;
      BackIs();
      var first := FrontFrom(place);
      var taken := BackFrom(place);
      PartsAgree(front, Back(), place, first, taken);
      if first < known {
        known := first;
      }
      assert Back() == back;
      Leave(first);
      BackIs();
      assert Back() == was[first..] + back;
      Take(taken);
      assert Back() == (was[first..] + back)[taken..];
      Rejoined(was, back, first, taken);
      Parted(was, was + back, front, Back(), place, first, taken, furthest, had, known);
      ValidFrom();
    }

    lemma ValidParts()
      requires Valid()
      ensures known <= |front| && Ordered(front[..known]) && AreFurthest(front, furthest, known)
      ensures Ordered(Back())
    {
    }

    lemma ValidFrom()
      requires known <= |front| && Ordered(front[..known]) && AreFurthest(front, furthest, known)
      requires Ordered(Back())
      ensures Valid()
    {
    }

    lemma BackIs()
      ensures Back() == Told(stored, end) && |Back()| == |stored|
    {
    }

    /** The front's readings from `first` on put in the back, the last of them first. */
    method Leave(first: nat)
      requires first <= |front|
      modifies this`front, this`stored
      ensures front == old(front)[..first] && Back() == old(front)[first..] + old(Back())
    {
      hide Told, Flip;
      ghost var was, back := front, Back();
      if first == |front| {
        return;
      }
      var left := front;
      var i := |left|;
      front := front[..first];
      assert was[i..] + back == back;
      while i > first
        invariant first <= i <= |left| && left == was && front == was[..first]
        invariant Back() == was[i..] + back
      {
        i := i - 1;
        ToldPut(stored, left[i], end);
        stored := stored + [Flip(left[i], end)];
        assert was[i..] == [was[i]] + was[i + 1..];
      }
    }

    /** The first `taken` of the back put at the front's end. */
    method Take(taken: nat)
      requires taken <= |stored|
      modifies this`front, this`stored
      ensures front == old(front) + old(Back())[..taken] && Back() == old(Back())[taken..]
    {
      hide Told, Flip;
      ghost var was, back := front, Back();
      for i := 0 to taken
        invariant |stored| == |back| - i && front == was + back[..i] && Back() == back[i..]
      {
        ToldTop(stored, end);
        ToldCut(stored, end, 1);
        front := front + [Flip(stored[|stored| - 1], end)];
        stored := stored[..|stored| - 1];
        assert back[..i + 1] == back[..i] + [back[i]];
      }
    }

    /** The back's readings that start before `place` gone. */
    method Cut(place: int) returns (gone: nat)
      requires Valid()
      modifies this`stored
      ensures Valid() && gone <= |old(Back())| && Back() == old(Back())[gone..]
      ensures forall k :: 0 <= k < gone ==> old(Back())[k].start < place
      ensures forall k :: 0 <= k < |Back()| ==> Back()[k].start >= place
    {
      hide Told, AreFurthest, Ordered;
      ghost var back := Back();
      gone := BackFrom(place);
      assert Back() == back;
      ToldCut(stored, end, gone);
      stored := stored[..|stored| - gone];
      DropOrdered(back, gone);
    }

    /** The text changed by `delta` bytes before the back: every reading of the back stands as far from the end. */
    method Shift(delta: int)
      requires Valid()
      modifies this`end
      ensures Valid() && end == old(end) + delta && |Back()| == |old(Back())|
      ensures forall k :: 0 <= k < |Back()| ==> Back()[k] == Moved(old(Back())[k], delta)
    {
      hide Told, AreFurthest, Ordered;
      ghost var back := Back();
      ToldShiftsOrdered(stored, end, delta);
      forall k: nat | k < |stored|
        ensures Told(stored, end + delta)[k] == Moved(back[k], delta)
      {
        ToldShifts(stored, end, delta, k);
      }
      end := end + delta;
    }

    /** THE SPLICE: of the back, the old readings that start before `place` go and the others move by `delta`. The log is
        one again exactly when nothing the front holds starts past the first of them; so it does when the reading stopped
        where `place` is in the new text. */
    method Splice(place: int, delta: int) returns (gone: nat)
      requires Valid()
      modifies this`stored, this`end
      ensures Valid() && end == old(end) + delta && gone <= |old(Back())| && |Back()| == |old(Back())| - gone
      ensures forall k :: 0 <= k < gone ==> old(Back())[k].start < place
      ensures forall k :: 0 <= k < |Back()| ==>
                Back()[k] == Moved(old(Back())[gone + k], delta) && Back()[k].start >= place + delta
      ensures Apart(front, Back()) <==> Back() == [] || StartBy(front, Back()[0].start)
      ensures StartBy(front, place + delta) ==> Apart(front, Back())
    {
      hide Told, AreFurthest, Ordered, Apart;
      gone := Cut(place);
      Shift(delta);
      ApartBy(front, Back());
    }

    /** The back gone, as a reading that came to the text's end took none of it. */
    method Drop()
      requires Valid()
      modifies this`stored
      ensures Valid() && Back() == [] && stored == [] && Apart(front, Back())
    {
      stored := [];
    }

    /** Whether a reading of the back spans `place`: one of those that start before it, nearest the focus. */
    method BackReadsPast(place: nat) returns (past: bool)
      requires Ordered(Back())
      ensures past <==> IsSpanned(Back(), place)
    {
      hide *;
      var k, start := BackSpanned(place);
      BackIs();
      past := start.Some?;
      if past {
        FirstSpans(Back(), place, k);
      } else {
        NoneSpans(Back(), place, k);
      }
    }

    /** AN EDIT OF THE TEXT, its log in order: the focus moves to where the text is read again from; the reading notes
        what it reads; and it takes the old text's readings from `taken` on back, or comes to the text's end. The log
        is one again, of the readings before, those noted, and those taken back, each moved by `delta`: the next
        edit finds it as this one did once its front is in order. */
    method Edit(place: nat, size: int, noted: seq<Reading>, taken: Option<nat>, delta: int) returns (kept: nat, from: nat)
      requires Valid() && Ordered(front) && Apart(front, Back()) && (stored != [] ==> end == size)
      requires taken.Some? ==> place <= taken.value && place <= taken.value + delta && StartBy(noted, taken.value + delta)
      modifies this
      ensures Valid() && Apart(front, Back()) && (stored != [] ==> end == size + delta)
      ensures Edited(old(front + Back()), noted, front, Back(), place, taken, delta, kept, from)
      ensures taken.Some? && !IsSpanned(old(front + Back()), place) && !IsSpanned(noted, taken.value + delta) ==>
                !IsSpanned(front + Back(), taken.value + delta)
    {
      hide Valid, Told, Ordered, AreFurthest, Apart, Spans, IsSpanned, Edited, Moved, StartBy;
      ghost var log := front + Back();
      Move(place, size);
      ghost var before, back := front, Back();
      kept := |front|;
      NoteAll(noted);
      if taken.None? {
        BackIs();
        from := kept + |stored|;
        Drop();
      } else {
        JoinedStarts(before, noted, place, taken.value + delta);
        var gone := Splice(taken.value, delta);
        from := kept + gone;
        if !IsSpanned(log, place) && !IsSpanned(noted, taken.value + delta) {
          Unspanned(before, back, noted, Back(), place, taken.value + delta);
        }
      }
      EditedFrom(log, before, back, noted, Back(), place, taken, delta, from);
    }

    /** What a reading notes. */
    method NoteAll(noted: seq<Reading>)
      requires Valid()
      modifies this`front
      ensures Valid() && front == old(front) + noted
    {
      hide *;
      ghost var before := front;
      for i := 0 to |noted|
        invariant Valid() && front == before + noted[..i]
      {
        Note(noted[i].start, noted[i].end);
        assert noted[..i + 1] == noted[..i] + [noted[i]];
      }
      assert noted[..|noted|] == noted;
    }

    /** Puts the front in order, the first `known` of it in order already. `moved` is the first place written: the
        first of the readings in order that starts past the least of the others. */
    method SortFront(granted: bool) returns (moved: nat, ok: bool)
      requires known <= |front| && Ordered(front[..known])
      modifies this`front
      ensures multiset(front) == multiset(old(front)) && |front| == |old(front)| && moved <= |front|
      ensures front[..moved] == old(front)[..moved]
      ensures ok ==> Ordered(front) && (NoneBefore(old(front), known) ==> known <= moved)
      ensures !ok ==> !Ordered(front) && front[..known] == old(front)[..known]
      ensures granted || Ordered(old(front)) ==> ok
    {
      hide Ordered, Merge;
      ghost var was := front;
      var count := |front|;
      var upto: nat := if known > 1 then known else 1;
      OneOrdered(front, known, upto);
      while upto < count && front[upto - 1].start <= front[upto].start
        invariant front == was && 1 <= upto && (upto <= count ==> Ordered(front[..upto])) && (count <= upto ==> Ordered(front))
      {
        OrderedOn(front, upto);
        upto := upto + 1;
        assert upto == count ==> front[..upto] == front;
      }
      moved, ok := count, true;
      if upto >= count {
        assert front[..moved] == front;
        return;
      }
      Unordered(front, upto);
      var sorted := Sort(front[upto..]);
      ghost var first := was[..upto];
      front := front[..upto] + sorted;
      assert was == first + was[upto..];
      var low := FirstOver(first, sorted, upto);
      moved := low;
      assert front[..moved] == was[..moved];
      LeastOfRest(was, upto, sorted);
      if NoneBefore(was, known) {
        LowPast(was, known, upto, sorted, low);
      }
      ok := HasStorage(granted);
      if !ok {
        assert front[..known] == was[..known];
        Unordered(front, upto);
        return;
      }
      MergeBack(first, sorted, low);
      MergeStays(first, sorted, low);
      MergeKeeps(first, sorted);
      MergeOrders(first, sorted);
      assert front[..moved] == was[..moved];
    }

    /** The first of the front's first `upto`, in order, that starts past the first after them. */
    method FirstOver(ghost first: seq<Reading>, ghost sorted: seq<Reading>, upto: nat) returns (low: nat)
      requires front == first + sorted && |first| == upto && sorted != [] && Ordered(first)
      ensures low <= upto && forall i :: 0 <= i < low ==> first[i].start <= sorted[0].start
      ensures forall i :: low <= i < upto ==> first[i].start > sorted[0].start
    {
      hide Ordered;
      var high := upto;
      low := 0;
      while low < high
        invariant low <= high <= upto
        invariant forall i :: 0 <= i < low ==> first[i].start <= sorted[0].start
        invariant forall i :: high <= i < upto ==> first[i].start > sorted[0].start
      {
        var middle := low + (high - low) / 2;
        OrderedAt(first, middle);
        if front[middle].start > front[upto].start {
          high := middle;
        } else {
          low := middle + 1;
        }
      }
    }

    /** Merges the readings of `rest` into those before, from the back: none before `low` is written. */
    method MergeBack(ghost first: seq<Reading>, rest: seq<Reading>, low: nat)
      requires rest != [] && front == first + rest && Ordered(first) && Ordered(rest) && low <= |first|
      requires forall i :: 0 <= i < low ==> first[i].start <= rest[0].start
      requires forall i :: low <= i < |first| ==> first[i].start > rest[0].start
      modifies this`front
      ensures front == Merge(first, rest)
    {
      hide Ordered, Merge, Merging;
      var left: nat, right: nat, at: nat := |front| - |rest|, |rest|, |front|;
      MergingStarts(first, rest);
      OrderedAt(rest, 0);
      while right > 0
        invariant low <= left <= |first| && right <= |rest| && at == left + right && |front| == |first| + |rest|
        invariant Merging(first, rest, front, left, right)
        invariant right == 0 ==> left == low
        decreases at
      {
        if left > 0 && front[left - 1].start > rest[right - 1].start {
          FrontMerged(first, rest, front, left, right);
          left, at := left - 1, at - 1;
          front := front[at := front[left]];
        } else {
          RestMerged(first, rest, front, left, right);
          right, at := right - 1, at - 1;
          front := front[at := rest[right]];
        }
      }
      MergingEnds(first, rest, front, left);
    }

    /** The furthest ends of the front's prefixes from `from` on. */
    method FindFurthest(from: nat)
      requires from <= |front| && from <= |furthest|
      modifies this`furthest
      ensures furthest == Ends(front, old(furthest)[..from])
    {
      var end := if from > 0 then furthest[from - 1] else 0;
      furthest := furthest[..from];
      ghost var log, kept := front, furthest;
      for i := from to |front|
        invariant front == log && |furthest| == i && Ends(log, furthest) == Ends(log, kept)
        invariant end == if i > 0 then furthest[i - 1] else 0
      {
        end := if front[i].end > end then front[i].end else end;
        furthest := furthest + [end];
      }
    }

    /** THE FRONT IN ORDER, with the furthest ends of all its prefixes: of those that stay, the ends stay. When storage
        is refused the first `known` readings stay in place exactly when the front is in no order yet or nothing noted
        past them starts before one of them: it is in order when only the ends' storage was refused. */
    method SortReach(granted: bool) returns (ok: bool)
      requires Valid() && Apart(front, Back())
      modifies this`front, this`furthest, this`known
      ensures multiset(front) == multiset(old(front)) && Apart(front, Back())
      ensures ok ==> Valid() && Ordered(front) && Ordered(front + Back()) && known == |front|
      ensures granted ==> ok
      ensures !ok ==> known == old(known) && furthest == old(furthest)
      ensures !ok ==> (known <= |front| && front[..known] == old(front)[..known] <==>
                         !Ordered(front) || NoneBefore(old(front), known))
      ensures !ok && known <= |front| && front[..known] == old(front)[..known] ==> Valid()
    {
      hide Ordered, AreFurthest, Apart, Told, NoneBefore, Ends;
      ghost var was := front;
      var moved;
      moved, ok := SortFront(granted);
      ApartStays(was, front, Back());
      if !ok {
        FurthestStays(was, front, furthest, known, known);
        return;
      }
      ok := HasStorage(granted);
      if !ok {
        if front[..known] == was[..known] {
          FurthestStays(was, front, furthest, known, known);
          KeptOnly(was, front, known);
        }
        return;
      }
      var from: nat := if known < moved then known else moved;
      assert front[..from] == front[..moved][..from] == was[..moved][..from] == was[..from];
      FurthestStays(was, front, furthest, known, from);
      FurthestFrom(front, furthest, from);
      EndsAre(front, furthest[..from]);
      FindFurthest(from);
      known := |front|;
      assert front[..known] == front;
      JoinedAt(front, Back());
    }

    /** WHETHER A READING SPANS A POINT, and where the first that does starts. */
    method Spanned(point: nat) returns (start: Option<int>)
      requires Valid() && Apart(front, Back()) && known == |front|
      ensures start.Some? <==> IsSpanned(front + Back(), point)
      ensures start.Some? ==> IsLeast(front + Back(), point, start.value)
    {
      hide *;
      WholeOrdered();
      JoinedAt(front, Back());
      var low := FirstPast(point);
      if low < |front| {
        FirstSpans(front + Back(), point, low);
        if front[low].start >= point {
          return None;
        }
        return Some(front[low].start);
      }
      var past;
      past, start := BackSpanned(point);
      BackSpans(front, Back(), point, past);
    }

    /** The back's first reading that starts at or past a point, or before it that reads past it. */
    method BackSpanned(point: nat) returns (k: nat, start: Option<int>)
      ensures k <= |Back()| && forall i :: 0 <= i < k ==> Back()[i].end <= point
      ensures k < |Back()| ==> Back()[k].start >= point || Back()[k].end > point
      ensures start == if k < |Back()| && Back()[k].start < point then Some(Back()[k].start) else None
    {
      hide Told, Flip;
      BackIs();
      k := 0;
      while k < |stored| && end - stored[|stored| - 1 - k].start < point
        invariant k <= |stored| && forall i :: 0 <= i < k ==> Back()[i].end <= point
      {
        ToldAt(k);
        var place := Flip(stored[|stored| - 1 - k], end);
        if place.end > point {
          return k, Some(place.start);
        }
        k := k + 1;
      }
      if k < |stored| {
        ToldAt(k);
      }
      start := None;
    }

    lemma WholeOrdered()
      requires Valid() && known == |front|
      ensures Ordered(front) && Ordered(Back()) && AreFurthest(front, furthest, |front|)
      ensures |Back()| == |stored|
    {
      assert front[..known] == front;
    }

    lemma ToldAt(k: nat)
      requires k < |stored|
      ensures |Back()| == |stored| && Back()[k] == Flip(stored[|stored| - 1 - k], end)
      ensures Back()[k].start == end - stored[|stored| - 1 - k].start
    {
    }

    /** The front's first reading that reads past a point. */
    method FirstPast(point: nat) returns (low: nat)
      requires AreFurthest(front, furthest, |front|)
      ensures low <= |front| && (low < |front| ==> front[low].end > point)
      ensures forall i :: 0 <= i < low ==> front[i].end <= point
    {
      hide Furthest, AreFurthest;
      FurthestSize(front, furthest);
      var high := |front|;
      low := 0;
      while low < high
        invariant low <= high <= |front|
        invariant low > 0 ==> furthest[low - 1] <= point
        invariant high < |front| ==> furthest[high] > point
      {
        var middle := low + (high - low) / 2;
        if furthest[middle] > point {
          high := middle;
        } else {
          low := middle + 1;
        }
      }
      FirstReaches(front, furthest, point, low);
    }
  }

  lemma NoneTold(stored: seq<Reading>, end: int, size: int)
    requires stored != [] ==> end == size
    ensures Told(stored, end) == Told(stored, size)
  {
  }

  lemma ToldTop(stored: seq<Reading>, end: int)
    requires stored != []
    ensures Told(stored, end) != [] && Told(stored, end)[0] == Flip(stored[|stored| - 1], end)
  {
  }

  /** Where some of the front are to leave it, none of the back is to come. */
  lemma PartsAgree(front: seq<Reading>, back: seq<Reading>, place: int, first: nat, taken: nat)
    requires Apart(front, back) && first <= |front| && taken <= |back|
    requires forall i :: first <= i < |front| ==> front[i].start >= place
    requires forall i :: 0 <= i < taken ==> back[i].start < place
    ensures first == |front| || taken == 0
  {
    if first < |front| {
      assert taken > 0 ==> StartsBy(front, back, first, 0);
    }
  }

  /** A log in order parted at a place, its front having been the first readings of it. */
  lemma Parted(was: seq<Reading>, log: seq<Reading>, front: seq<Reading>, back: seq<Reading>, place: int,
               first: nat, taken: nat, furthest: seq<int>, known: nat, left: nat)
    requires Ordered(log) && |was| <= |log| && was == log[..|was|] && first <= |was| && taken <= |log| - |was|
    requires first == |was| || taken == 0
    requires front == log[..first + taken] && back == log[first + taken..]
    requires forall i :: 0 <= i < first ==> was[i].start < place
    requires forall i :: first <= i < |was| ==> was[i].start >= place
    requires forall i :: 0 <= i < taken ==> log[|was|..][i].start < place
    requires forall i :: taken <= i < |log| - |was| ==> log[|was|..][i].start >= place
    requires AreFurthest(was, furthest, known) && left == if first < known then first else known
    ensures forall i :: 0 <= i < |front| ==> front[i].start < place
    ensures forall k :: 0 <= k < |back| ==> back[k].start >= place
    ensures Ordered(front) && Ordered(front[..left]) && Ordered(back) && Apart(front, back)
    ensures front + back == log && AreFurthest(front, furthest, left)
    ensures left == if known < |front| then known else |front|
  {
    hide AreFurthest, Apart, Ordered;
    PartedAt(log, first + taken);
    KnownFits(was, furthest, known);
    PartedAt(front, left);
    assert front[..left] == was[..left];
    FurthestStays(was, front, furthest, known, left);
    forall k | 0 <= k < |back|
      ensures back[k].start >= place
    {
      var i := first + taken + k;
      assert back[k] == log[i] == if i < |was| then was[i] else log[|was|..][i - |was|];
    }
    forall i | 0 <= i < |front|
      ensures front[i].start < place
    {
      assert front[i] == log[i] == if i < |was| then was[i] else log[|was|..][i - |was|];
    }
  }

  lemma Rejoined(was: seq<Reading>, back: seq<Reading>, first: nat, taken: nat)
    requires first <= |was| && taken <= |back| && (first == |was| || taken == 0)
    ensures var rest := was[first..] + back;
            was[..first] + rest[..taken] == (was + back)[..first + taken] && rest[taken..] == (was + back)[first + taken..]
    ensures was == (was + back)[..|was|] && back == (was + back)[|was|..]
  {
  }

  /** When the front reads past no point, the back's first that does tells whether any reading spans it. */
  lemma BackSpans(front: seq<Reading>, back: seq<Reading>, point: nat, k: nat)
    requires Ordered(front + back) && k <= |back|
    requires forall i :: 0 <= i < |front| ==> front[i].end <= point
    requires forall i :: 0 <= i < k ==> back[i].end <= point
    requires k < |back| ==> back[k].start >= point || back[k].end > point
    ensures IsSpanned(front + back, point) <==> k < |back| && back[k].start < point
    ensures k < |back| && back[k].start < point ==> IsLeast(front + back, point, back[k].start)
  {
    hide Ordered, IsSpanned, IsLeast;
    var log, past: nat := front + back, |front| + k;
    assert forall i :: 0 <= i < |log| ==> log[i] == if i < |front| then front[i] else back[i - |front|];
    if k < |back| && back[k].end > point {
      FirstSpans(log, point, past);
    } else {
      NoneSpans(log, point, past);
    }
  }

  lemma KnownFits(log: seq<Reading>, furthest: seq<int>, known: nat)
    requires AreFurthest(log, furthest, known)
    ensures known <= |log|
  {
  }

  lemma FurthestSize(log: seq<Reading>, furthest: seq<int>)
    requires AreFurthest(log, furthest, |log|)
    ensures |furthest| >= |log|
  {
  }

  lemma FurthestFrom(log: seq<Reading>, furthest: seq<int>, from: nat)
    requires AreFurthest(log, furthest, from)
    ensures from <= |furthest| && AreFurthest(log, furthest[..from], from)
    ensures from <= |log| && (if from > 0 then furthest[from - 1] else 0) == Furthest(log[..from])
  {
    assert from == 0 ==> log[..from] == [];
  }

  lemma FurthestOn(log: seq<Reading>, furthest: seq<int>, i: nat)
    requires i < |log| && |furthest| == i && AreFurthest(log, furthest, i)
    ensures var end := if log[i].end > Furthest(log[..i]) then log[i].end else Furthest(log[..i]);
            end == Furthest(log[..i + 1]) && AreFurthest(log, furthest + [end], i + 1)
  {
    assert log[..i + 1][..i] == log[..i];
  }
}
