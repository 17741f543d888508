/** A run of Text siblings made one: its literal theirs joined, its map a view when theirs chain. */
module TextConsolidation {
  import opened Basics
  import opened ContentMaps

  const LITERAL_LIMIT: nat := INT32_MAX / 2

  datatype Extent = Extent(start: int, end: int)

  datatype Text = Text(literal: seq<Byte>, runs: Map, place: Extent)

  datatype Outcome = Failed | Consumed | Continue(text: Text)

  // ---------- What a run of operands amounts to ----------

  ghost function Joined(ops: seq<Text>): seq<Byte>
  {
    if ops == [] then [] else Joined(ops[..|ops| - 1]) + ops[|ops| - 1].literal
  }

  /** Where operand `k` begins in the joined literal. */
  ghost function Offset(ops: seq<Text>, k: nat): (n: nat)
    requires k <= |ops|
    ensures n == |Joined(ops[..k])|
  {
    |Joined(ops[..k])|
  }

  lemma OffsetOn(ops: seq<Text>, k: nat)
    requires k < |ops|
    ensures Offset(ops, k + 1) == Offset(ops, k) + |ops[k].literal|
    ensures Joined(ops[..k + 1]) == Joined(ops[..k]) + ops[k].literal
  {
    assert ops[..k + 1][..k] == ops[..k];
  }

  /** An operand is a slice of its container's map, or has one run of its own, or no map. */
  ghost predicate Operand(marks: seq<Mark>, owner: Map, t: Text)
  {
    || t.runs.count == 0
    || (&& Runs(marks, owner) && t.literal != [] && 0 <= t.runs.offset && marks[owner.first].at <= t.runs.offset
        && t.runs == Slice(marks, owner, t.runs.offset - owner.offset, |t.literal|))
    || (&& Runs(marks, t.runs) && t.literal != [] && t.runs.offset == 0 && marks[t.runs.first].at == 0
        && owner.first + owner.count <= t.runs.first)
  }

  /** Every byte of operand `k` is answered as the operand answered it. */
  ghost predicate Answers(was: seq<Mark>, ops: seq<Text>, marks: seq<Mark>, m: Map, k: nat)
    requires k < |ops|
  {
    ops[k].literal != [] ==> Copied(was, ops[k].runs, 0, marks, m, Offset(ops, k), |ops[k].literal|)
  }

  /** Every byte of the first `n` operands is answered as its operand answered it. */
  ghost predicate AnswersAll(was: seq<Mark>, ops: seq<Text>, n: nat, marks: seq<Mark>, m: Map)
    requires n <= |ops|
  {
    forall k :: 0 <= k < n ==> Answers(was, ops, marks, m, k)
  }

  // ---------- The view ----------

  /** Operand `k` begins where the one before it ended, on its last run or the one after. */
  ghost predicate Chains(ops: seq<Text>, k: nat)
    requires 0 < k < |ops|
  {
    var a, b := ops[k - 1].runs, ops[k].runs;
    b.count > 0 && b.offset == a.offset + |ops[k - 1].literal| && a.first + a.count - 1 <= b.first <= a.first + a.count
  }

  ghost predicate Chained(ops: seq<Text>, n: nat)
    requires 0 < n <= |ops|
  {
    ops[0].runs.count > 0 && forall k :: 0 < k < n ==> Chains(ops, k)
  }

  ghost function View(ops: seq<Text>, n: nat): Map
    requires 0 < n <= |ops| && ops[0].runs.first <= ops[n - 1].runs.first + ops[n - 1].runs.count
  {
    Map(ops[0].runs.first, ops[n - 1].runs.first + ops[n - 1].runs.count - ops[0].runs.first, ops[0].runs.offset)
  }

  lemma OffsetNone(ops: seq<Text>)
    ensures Offset(ops, 0) == 0
  {
    assert ops[..0] == [];
  }

  /** Operands that chain are slices of one map, each after the one before; but for one that stands alone. */
  lemma {:induction false} ChainSlices(marks: seq<Mark>, owner: Map, ops: seq<Text>, n: nat, k: nat)
    requires k < n <= |ops| && 1 < n && Chained(ops, n)
    requires forall i :: 0 <= i < n ==> Operand(marks, owner, ops[i])
    ensures Runs(marks, owner) && ops[k].literal != []
    ensures ops[k].runs == Slice(marks, owner, ops[k].runs.offset - owner.offset, |ops[k].literal|)
    ensures ops[k].runs.offset == ops[0].runs.offset + Offset(ops, k)
  {
    hide Slice, Runs, Joined, Offset;
    assert Operand(marks, owner, ops[0]) && Operand(marks, owner, ops[1]) && Chains(ops, 1);
    OffsetNone(ops);
    if k > 0 {
      ChainSlices(marks, owner, ops, n, k - 1);
      OffsetOn(ops, k - 1);
      assert Operand(marks, owner, ops[k]) && Chains(ops, k);
    }
  }

  /** The view of operands that chain is the slice of their container that spans them all. */
  lemma ViewIsSlice(marks: seq<Mark>, owner: Map, ops: seq<Text>)
    requires 1 < |ops| && Chained(ops, |ops|)
    requires forall i :: 0 <= i < |ops| ==> Operand(marks, owner, ops[i])
    ensures ops[0].runs.first <= ops[|ops| - 1].runs.first + ops[|ops| - 1].runs.count
    ensures Runs(marks, owner) && Offset(ops, |ops|) > 0
    ensures View(ops, |ops|) == Slice(marks, owner, ops[0].runs.offset - owner.offset, Offset(ops, |ops|))
  {
    hide Operand, Chained, Slice, Offset, View;
    var n := |ops|;
    ChainSlices(marks, owner, ops, n, 0);
    ChainSlices(marks, owner, ops, n, n - 1);
    OffsetOn(ops, n - 1);
    SpanIsSlice(marks, owner, ops, ops[0].runs.offset - owner.offset, Offset(ops, n));
  }

  lemma ViewOperand(marks: seq<Mark>, owner: Map, ops: seq<Text>, k: nat)
    requires 1 < |ops| && Chained(ops, |ops|) && k < |ops|
    requires forall i :: 0 <= i < |ops| ==> Operand(marks, owner, ops[i])
    requires ops[0].runs.first <= ops[|ops| - 1].runs.first + ops[|ops| - 1].runs.count
    ensures Answers(marks, ops, marks, View(ops, |ops|), k)
  {
    hide Operand, Chained, Slice, Offset, View, At, Runs, RunAt;
    var n, from, m := |ops|, ops[0].runs.offset - owner.offset, View(ops, |ops|);
    ViewIsSlice(marks, owner, ops);
    ChainSlices(marks, owner, ops, n, k);
    OffsetOn(ops, k);
    OffsetGrows(ops, k + 1, n);
    SliceAnswers(marks, owner, ops[k].runs.offset - owner.offset, |ops[k].literal|, 0);
    SliceAnswers(marks, owner, from, Offset(ops, n), 0);
    forall x | 0 <= x < |ops[k].literal|
      ensures Agrees(marks, ops[k].runs, 0, marks, m, Offset(ops, k), x)
    {
      SliceAnswers(marks, owner, ops[k].runs.offset - owner.offset, |ops[k].literal|, x);
      SliceAnswers(marks, owner, from, Offset(ops, n), Offset(ops, k) + x);
    }
  }

  /** THE VIEW IS THE CONCATENATION: operands that chain have the slice of their container that spans them all
      answer every byte as its own operand does. */
  lemma ViewAnswers(marks: seq<Mark>, owner: Map, ops: seq<Text>)
    requires 1 < |ops| && Chained(ops, |ops|)
    requires forall i :: 0 <= i < |ops| ==> Operand(marks, owner, ops[i])
    ensures ops[0].runs.first <= ops[|ops| - 1].runs.first + ops[|ops| - 1].runs.count
    ensures AnswersAll(marks, ops, |ops|, marks, View(ops, |ops|))
  {
    hide Operand, Chained, View, Answers, Offset, Slice;
    ViewIsSlice(marks, owner, ops);
    forall k | 0 <= k < |ops|
      ensures Answers(marks, ops, marks, View(ops, |ops|), k)
    {
      ViewOperand(marks, owner, ops, k);
    }
  }

  lemma {:induction false} OffsetGrows(ops: seq<Text>, j: nat, k: nat)
    requires j <= k <= |ops|
    ensures Offset(ops, j) <= Offset(ops, k)
  {
    if j < k {
      OffsetGrows(ops, j, k - 1);
      OffsetOn(ops, k - 1);
    }
  }

  lemma SpanIsSlice(marks: seq<Mark>, owner: Map, ops: seq<Text>, from: int, length: int)
    requires Runs(marks, owner) && 0 < |ops| && length > 0
    requires var a, b, o := ops[0], ops[|ops| - 1], owner.offset;
             && a.literal != [] && a.runs == Slice(marks, owner, a.runs.offset - o, |a.literal|) && from == a.runs.offset - o
             && b.literal != [] && b.runs == Slice(marks, owner, b.runs.offset - o, |b.literal|)
             && b.runs.offset + |b.literal| == a.runs.offset + length && a.runs.offset <= b.runs.offset
    ensures ops[0].runs.first <= ops[|ops| - 1].runs.first + ops[|ops| - 1].runs.count
    ensures View(ops, |ops|) == Slice(marks, owner, from, length)
  {
    var a, b := ops[0].runs, ops[|ops| - 1].runs;
    RunOrder(marks, owner.first, owner.count, a.offset, b.offset);
  }

  // ---------- The concatenation ----------

  /** The first `n` operands' runs are put one after another in `m`, past the runs there were. */
  ghost predicate Built(was: seq<Mark>, ops: seq<Text>, n: nat, marks: seq<Mark>, m: Map)
    requires n <= |ops|
  {
    && was <= marks && AllWide(marks) && m.offset == 0
    && (m.count == 0 ==> m == NONE && Offset(ops, n) == 0)
    && (m.count > 0 ==>
          && Runs(marks, m) && AtEnd(marks, m) && |was| <= m.first
          && marks[m.first].at <= 0 && End(marks, m) <= Offset(ops, n))
    && AnswersAll(was, ops, n, marks, m)
  }

  lemma BuiltStarts(was: seq<Mark>, ops: seq<Text>)
    requires AllWide(was)
    ensures Built(was, ops, 0, was, NONE)
  {
  }

  /** What putting operand `k`'s runs relies on. */
  lemma BuiltReady(was: seq<Mark>, owner: Map, ops: seq<Text>, k: nat, marks: seq<Mark>, m: Map)
    requires k < |ops| && Built(was, ops, k, marks, m) && Operand(was, owner, ops[k])
    ensures var at, t := Offset(ops, k), ops[k].runs;
            && AllWide(marks) && Open(marks, m, at + m.offset) && Lone(marks, t, m, at + m.offset)
            && (t.count > 0 ==> Runs(marks, t) && Runs(was, t) && marks[t.first].at <= 0 + t.offset)
  {
    hide RunAt, AnswersAll, At;
    var t := ops[k].runs;
    if t.count > 0 {
      OperandRuns(was, owner, ops[k]);
      assert forall i :: t.first <= i < t.first + t.count ==> marks[i] == was[i];
    }
  }

  lemma OperandRuns(marks: seq<Mark>, owner: Map, t: Text)
    requires Operand(marks, owner, t) && t.runs.count > 0
    ensures Runs(marks, t.runs) && marks[t.runs.first].at <= t.runs.offset && t.literal != []
  {
    if Runs(marks, owner) && t.runs == Slice(marks, owner, t.runs.offset - owner.offset, |t.literal|) {
      RunFits(marks, owner.first, owner.count, t.runs.offset);
    }
  }

  lemma SameBefore(was: seq<Mark>, marks: seq<Mark>, m: Map, x: int)
    requires was <= marks && Runs(was, m)
    ensures Runs(marks, m) && At(marks, m, x) == At(was, m, x)
  {
    assert marks[m.first..m.first + m.count] == was[m.first..m.first + m.count];
    SameRuns(was, marks, m, m.first, x);
  }

  /** An operand of no bytes puts nothing. */
  lemma BuiltOver(was: seq<Mark>, ops: seq<Text>, k: nat, marks: seq<Mark>, m: Map)
    requires k < |ops| && Built(was, ops, k, marks, m) && ops[k].literal == []
    ensures Built(was, ops, k + 1, marks, m)
  {
    hide At, RunAt, Offset, Runs;
    OffsetOn(ops, k);
  }

  /** One operand more. */
  lemma BuiltOn(was: seq<Mark>, owner: Map, ops: seq<Text>, k: nat, prev: seq<Mark>, m: Map, marks: seq<Mark>, g: Map)
    requires k < |ops| && Built(was, ops, k, prev, m) && Operand(was, owner, ops[k])
    requires ops[k].literal != [] && ops[k].runs.count > 0
    requires In(prev, m) && Copied(prev, ops[k].runs, 0, marks, g, Offset(ops, k), |ops[k].literal|)
    requires FrontKept(prev, m, Offset(ops, k) + m.offset, marks, g) && Grew(prev, m, marks, g, true)
    requires AllWide(marks) && Runs(marks, g) && g.offset == m.offset
    requires End(marks, g) <= Offset(ops, k) + m.offset + |ops[k].literal| && marks[g.first].at <= Offset(ops, k) + m.offset
    ensures Built(was, ops, k + 1, marks, g)
  {
    hide At, RunAt, Offset, Copied, FrontKept, Operand, Runs;
    OffsetOn(ops, k);
    OperandRuns(was, owner, ops[k]);
    StillBefore(was, prev, m, marks);
    FrontStarts(prev, m, Offset(ops, k) + m.offset, marks, g);
    forall j | 0 <= j < k + 1
      ensures Answers(was, ops, marks, g, j)
    {
      if j < k {
        assert Answers(was, ops, prev, m, j);
        OffsetOn(ops, j);
        OffsetGrows(ops, j + 1, k);
        if ops[j].literal != [] {
          CopiedOn(was, ops[j].runs, prev, m, marks, g, Offset(ops, j), |ops[j].literal|, Offset(ops, k));
        }
      } else {
        CopiedFrom(was, prev, ops[k].runs, marks, g, Offset(ops, k), |ops[k].literal|);
      }
    }
  }

  lemma FrontStarts(was: seq<Mark>, m: Map, at: int, marks: seq<Mark>, g: Map)
    requires In(was, m) && FrontKept(was, m, at, marks, g)
    ensures m.count > 0 ==> In(marks, g) && g.count > 0 && (marks[g.first].at <= was[m.first].at || at <= was[m.first].at)
  {
  }

  /** What was copied before a map grew past it is still answered. */
  lemma CopiedOn(was: seq<Mark>, t: Map, prev: seq<Mark>, m: Map, marks: seq<Mark>, g: Map, offset: int, length: int, at: int)
    requires In(prev, m) && Copied(was, t, 0, prev, m, offset, length) && FrontKept(prev, m, at + m.offset, marks, g)
    requires 0 < length && offset + length <= at && m.count > 0 && prev[m.first].at <= 0 && m.offset == 0 <= offset
    requires Runs(marks, g)
    ensures Copied(was, t, 0, marks, g, offset, length)
  {
    hide At, RunAt;
    forall x | 0 <= x < length
      ensures Agrees(was, t, 0, marks, g, offset, x)
    {
      assert Agrees(was, t, 0, prev, m, offset, x);
    }
  }

  /** What was copied from runs still where they were is answered as they answered it. */
  lemma CopiedFrom(was: seq<Mark>, prev: seq<Mark>, t: Map, marks: seq<Mark>, g: Map, offset: int, length: int)
    requires was <= prev && Runs(was, t) && Copied(prev, t, 0, marks, g, offset, length)
    ensures Copied(was, t, 0, marks, g, offset, length)
  {
    hide At, RunAt;
    forall x | 0 <= x < length
      ensures Agrees(was, t, 0, marks, g, offset, x)
    {
      assert Agrees(prev, t, 0, marks, g, offset, x);
      SameBefore(was, prev, t, 0 + x);
    }
  }

  // ---------- The consolidation ----------

  /** The end of the last operand that has bytes, or of the first. */
  ghost function LastEnd(ops: seq<Text>): int
    requires ops != []
  {
    if |ops| == 1 || ops[|ops| - 1].literal != [] then ops[|ops| - 1].place.end else LastEnd(ops[..|ops| - 1])
  }

  /** How many runs the first `n` operands have. */
  ghost function RunsIn(ops: seq<Text>, n: nat): nat
    requires n <= |ops|
  {
    if n == 0 then 0 else RunsIn(ops, n - 1) + ops[n - 1].runs.count
  }

  lemma {:induction false} RunsGrow(ops: seq<Text>, k: nat, n: nat)
    requires k < n <= |ops|
    ensures RunsIn(ops, k) + ops[k].runs.count == RunsIn(ops, k + 1) <= RunsIn(ops, n)
  {
    if k + 1 < n {
      RunsGrow(ops, k, n - 1);
    }
  }

  /** The operands' bytes fit a literal and, but for a view, each that has some has runs, which fit the vector of `held`. */
  ghost predicate Fits(held: nat, ops: seq<Text>)
    requires ops != []
  {
    && Offset(ops, |ops|) <= LITERAL_LIMIT
    && (Chained(ops, |ops|) || (held + RunsIn(ops, |ops|) <= INT32_MAX && forall k :: 0 <= k < |ops| ==> HasRuns(ops[k])))
  }

  ghost predicate HasRuns(t: Text)
  {
    t.literal != [] ==> t.runs.count > 0
  }

  /** The Texts of a run of siblings made one: a view of their runs when they chain, which asks for none. */
  method Consolidate(content: ContentMarks, ops: seq<Text>, granted: bool, ghost owner: Map) returns (r: Outcome)
    requires ops != [] && AllWide(content.marks) && forall i :: 0 <= i < |ops| ==> Operand(content.marks, owner, ops[i])
    modifies content
    ensures old(content.marks) <= content.marks
    ensures r.Consumed? ==> Joined(ops) == []
    ensures r.Continue? ==> r.text.literal == Joined(ops) != []
    ensures r.Continue? && |ops| == 1 ==> r.text == ops[0]
    ensures r.Continue? && |ops| > 1 ==> AnswersAll(old(content.marks), ops, |ops|, content.marks, r.text.runs)
    ensures r.Continue? ==> r.text.place == Extent(ops[0].place.start, LastEnd(ops))
    ensures Chained(ops, |ops|) ==> content.marks == old(content.marks)
    ensures Chained(ops, |ops|) && r.Continue? && |ops| > 1 ==>
              && r.text.runs.first == ops[0].runs.first && r.text.runs.offset == ops[0].runs.offset
              && r.text.runs.first + r.text.runs.count == ops[|ops| - 1].runs.first + ops[|ops| - 1].runs.count
    ensures |ops| > 1 && Offset(ops, |ops|) > LITERAL_LIMIT ==> r.Failed?
    ensures |ops| == 1 || (granted && Fits(|old(content.marks)|, ops)) ==> !r.Failed?
  {
    hide Operand, Built, AnswersAll, Chained, At, RunAt, Offset, Runs, Open, Lone;
    ghost var was := content.marks;
    var cur := ops[0];
    FirstOperand(ops);
    if |ops| > 1 {
      var view, end, length := TryView(ops);
      if length > LITERAL_LIMIT {
        return Failed;
      }
      var combined := NONE;
      BuiltStarts(was, ops);
      if view {
        ViewAnswers(was, owner, ops);
        combined := Map(cur.runs.first, end - cur.runs.first, cur.runs.offset);
      } else {
        var ok;
        RunsGrow(ops, 0, |ops|);
        combined, ok := PutOperand(content, ops, 0, 0, combined, granted, was, owner);
        if !ok {
          return Failed;
        }
      }
      var storage := HasStorage(granted);
      if !storage {
        return Failed;
      }
      var merged, place := cur.literal, cur.place;
      for k := 1 to |ops|
        invariant was <= content.marks
        invariant merged == Joined(ops[..k]) && |merged| == Offset(ops, k)
        invariant place == Extent(ops[0].place.start, LastEnd(ops[..k]))
        invariant view ==> combined == Map(ops[0].runs.first, end - ops[0].runs.first, ops[0].runs.offset)
        invariant if view then content.marks == was && AnswersAll(was, ops, |ops|, was, combined)
                  else Built(was, ops, k, content.marks, combined) && |content.marks| <= |was| + RunsIn(ops, k)
      {
        var t := ops[k];
        OffsetOn(ops, k);
        LastEndOn(ops, k);
        if !view {
          var ok;
          RunsGrow(ops, k, |ops|);
          combined, ok := PutOperand(content, ops, k, |merged|, combined, granted, was, owner);
          if !ok {
            return Failed;
          }
        }
        merged := merged + t.literal;
        if |t.literal| > 0 {
          place := place.(end := t.place.end);
        }
      }
      assert ops[..|ops|] == ops;
      if !view {
        BuiltAnswers(was, ops, content.marks, combined);
      }
      cur := Text(merged, combined, place);
    }
    if |cur.literal| == 0 {
      return Consumed;
    }
    r := Continue(cur);
  }

  lemma FirstOperand(ops: seq<Text>)
    requires ops != []
    ensures Joined(ops[..1]) == ops[0].literal && Offset(ops, 1) == |ops[0].literal| && Offset(ops, 0) == 0
    ensures LastEnd(ops[..1]) == ops[0].place.end
    ensures |ops| == 1 ==> ops[..1] == ops
  {
    assert ops[..1][..0] == [];
  }

  lemma LastEndOn(ops: seq<Text>, k: nat)
    requires 0 < k < |ops|
    ensures LastEnd(ops[..k + 1]) == if ops[k].literal != [] then ops[k].place.end else LastEnd(ops[..k])
  {
    assert ops[..k + 1][..k] == ops[..k];
  }

  lemma BuiltAnswers(was: seq<Mark>, ops: seq<Text>, marks: seq<Mark>, m: Map)
    requires Built(was, ops, |ops|, marks, m)
    ensures AnswersAll(was, ops, |ops|, marks, m)
  {
  }

  lemma BuiltKeeps(was: seq<Mark>, ops: seq<Text>, n: nat, marks: seq<Mark>, m: Map)
    requires n <= |ops| && Built(was, ops, n, marks, m)
    ensures was <= marks && m.offset == 0 && In(marks, m) && (m.count > 0 ==> |was| <= m.first)
  {
  }

  lemma BuiltAtEnd(was: seq<Mark>, ops: seq<Text>, n: nat, marks: seq<Mark>, m: Map)
    requires n <= |ops| && Built(was, ops, n, marks, m)
    ensures m.count == 0 || m.first + m.count == |marks|
  {
  }

  lemma StillBefore(was: seq<Mark>, prev: seq<Mark>, m: Map, marks: seq<Mark>)
    requires was <= prev && Spares(prev, m, marks) && (m.count > 0 ==> |was| <= m.first)
    ensures was <= marks
  {
    assert forall i :: 0 <= i < |was| ==> marks[i] == prev[i] == was[i];
  }

  /** Whether the operands chain, where the last one's runs end, and the joined length. */
  method TryView(ops: seq<Text>) returns (view: bool, end: nat, length: nat)
    requires 1 < |ops|
    ensures view == Chained(ops, |ops|)
    ensures view ==> end == ops[|ops| - 1].runs.first + ops[|ops| - 1].runs.count && ops[0].runs.first <= end
    ensures length == Offset(ops, |ops|)
  {
    hide Offset;
    FirstOperand(ops);
    var cur := ops[0];
    view, end, length := cur.runs.count > 0, cur.runs.first + cur.runs.count, |cur.literal|;
    var offset := cur.runs.offset + |cur.literal|;
    for k := 1 to |ops|
      invariant length == Offset(ops, k) && view == Chained(ops, k)
      invariant view ==> end == ops[k - 1].runs.first + ops[k - 1].runs.count && ops[0].runs.first <= end
      invariant view ==> offset == ops[k - 1].runs.offset + |ops[k - 1].literal|
      invariant view ==> ops[k - 1].runs.count > 0
    {
      var t := ops[k];
      OffsetOn(ops, k);
      length := length + |t.literal|;
      if view {
        view := t.runs.count > 0 && t.runs.offset == offset && t.runs.first + 1 >= end && t.runs.first <= end;
        end := t.runs.first + t.runs.count;
        offset := offset + |t.literal|;
        assert view == Chains(ops, k);
      }
    }
  }

  /** The runs of operand `k` put at the end of the joined text's. */
  method PutOperand(content: ContentMarks, ops: seq<Text>, k: nat, at: nat, m: Map, granted: bool,
                    ghost was: seq<Mark>, ghost owner: Map)
    returns (g: Map, ok: bool)
    requires k < |ops| && at == Offset(ops, k) && Built(was, ops, k, content.marks, m) && Operand(was, owner, ops[k])
    modifies content
    ensures was <= content.marks
    ensures ok ==> Built(was, ops, k + 1, content.marks, g)
    ensures |content.marks| <= |old(content.marks)| + ops[k].runs.count
    ensures granted && HasRuns(ops[k]) && |old(content.marks)| + ops[k].runs.count <= INT32_MAX ==> ok
  {
    hide Built, Operand, Offset, Copied, FrontKept, Grew, OthersKept, Runs, Open, Lone, AllWide, Spares;
    ghost var prev := content.marks;
    BuiltReady(was, owner, ops, k, prev, m);
    BuiltKeeps(was, ops, k, prev, m);
    BuiltAtEnd(was, ops, k, prev, m);
    MostHolds(prev, m, ops[k].runs.count);
    MostOf(prev, m, ops[k].runs.count);
    g, ok := content.AppendMarks(ops[k].runs, m, 0, |ops[k].literal|, at, granted);
    StillBefore(was, prev, m, content.marks);
    if |ops[k].literal| == 0 {
      BuiltOver(was, ops, k, prev, m);
    } else if ok {
      BuiltOn(was, owner, ops, k, prev, m, content.marks, g);
    }
  }
}
