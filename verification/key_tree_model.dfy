/** The ordered index as a value: what a counted B+ tree denotes, and what an insertion
    and a removal make of it. `P` names the nodes, so that the value says which object holds what. */
module KeyTreeModel {

  const FANOUT: nat := 16
  const HALF: nat := (FANOUT + 1) / 2

  datatype Tree<P, E> =
    | Leaf(at: P, entries: seq<E>)
    | Inner(at: P, kids: seq<Tree<P, E>>, sizes: seq<nat>, keys: seq<E>)

  // ---------- What a tree denotes ----------

  ghost function Leaves<P, E>(t: Tree<P, E>): seq<Tree<P, E>>
  {
    match t
    case Leaf(_, _) => [t]
    case Inner(_, kids, _, _) => AllLeaves(kids)
  }

  ghost function AllLeaves<P, E>(ts: seq<Tree<P, E>>): seq<Tree<P, E>>
  {
    if ts == [] then [] else Leaves(ts[0]) + AllLeaves(ts[1..])
  }

  ghost function Own<P, E>(t: Tree<P, E>): seq<E>
  {
    if t.Leaf? then t.entries else []
  }

  ghost function Flat<P, E>(ls: seq<Tree<P, E>>): seq<E>
  {
    if ls == [] then [] else Own(ls[0]) + Flat(ls[1..])
  }

  /** The entries of a tree, in the order of its leaves. */
  ghost function Entries<P, E>(t: Tree<P, E>): seq<E>
  {
    Flat(Leaves(t))
  }

  ghost function Nodes<P, E>(t: Tree<P, E>): set<P>
  {
    match t
    case Leaf(at, _) => {at}
    case Inner(at, kids, _, _) => {at} + AllNodes(kids)
  }

  ghost function AllNodes<P, E>(ts: seq<Tree<P, E>>): set<P>
  {
    if ts == [] then {} else Nodes(ts[0]) + AllNodes(ts[1..])
  }

  // ---------- The invariant ----------

  /** Every leaf `h` levels down, no node past its fanout, and each size the entries below a child. */
  ghost predicate Shape<P, E>(t: Tree<P, E>, h: nat)
  {
    ShapeUpTo(t, h, FANOUT)
  }

  /** The same of a node that may hold up to `most`, as one that just outgrew its fanout does. */
  ghost predicate ShapeUpTo<P, E>(t: Tree<P, E>, h: nat, most: nat)
    decreases h
  {
    match t
    case Leaf(_, entries) => h == 0 && |entries| <= most
    case Inner(_, kids, sizes, keys) =>
      && h > 0
      && 1 <= |kids| <= most
      && |sizes| == |keys| == |kids|
      && forall i :: 0 <= i < |kids| ==> ShapeUpTo(kids[i], h - 1, FANOUT) && sizes[i] == |Entries(kids[i])|
  }

  ghost predicate Sorted<E>(weight: E -> real, s: seq<E>)
  {
    forall i, j :: 0 <= i < j < |s| ==> weight(s[i]) < weight(s[j])
  }

  ghost function Low<E>(weight: E -> real, keys: seq<E>, i: nat, lo: real): real
    requires i < |keys|
  {
    if i == 0 then lo else weight(keys[i])
  }

  ghost function High<E>(weight: E -> real, keys: seq<E>, i: nat, hi: real): real
    requires i < |keys|
  {
    if i + 1 < |keys| then weight(keys[i + 1]) else hi
  }

  ghost predicate Separated<E>(weight: E -> real, keys: seq<E>, lo: real, hi: real)
  {
    && (forall i :: 1 <= i < |keys| ==> lo < weight(keys[i]) < hi)
    && (forall i, j :: 1 <= i < j < |keys| ==> weight(keys[i]) < weight(keys[j]))
  }

  ghost predicate Within<E>(weight: E -> real, s: seq<E>, lo: real, hi: real)
  {
    forall i :: 0 <= i < |s| ==> lo <= weight(s[i]) < hi
  }

  /** Leaves sorted, and every separator, but an inner node's first key, bounding the subtrees
      beside it: the keys of child i lie from key i on and before key i + 1. */
  ghost predicate Ordered<P, E>(weight: E -> real, t: Tree<P, E>, lo: real, hi: real)
  {
    match t
    case Leaf(_, entries) => Sorted(weight, entries) && Within(weight, entries, lo, hi)
    case Inner(_, kids, _, keys) =>
      && |keys| == |kids|
      && Separated(weight, keys, lo, hi)
      && forall i :: 0 <= i < |kids| ==> Ordered(weight, kids[i], Low(weight, keys, i, lo), High(weight, keys, i, hi))
  }

  /** At least `least` children here and at least HALF in every inner node below. */
  ghost predicate Filled<P, E>(t: Tree<P, E>, least: nat)
  {
    t.Inner? ==> |t.kids| >= least && forall i :: 0 <= i < |t.kids| ==> Filled(t.kids[i], HALF)
  }

  /** No node is met twice. */
  ghost predicate Apart<P, E>(t: Tree<P, E>)
  {
    t.Inner? ==>
      && t.at !in AllNodes(t.kids)
      && (forall i :: 0 <= i < |t.kids| ==> Apart(t.kids[i]))
      && (forall i, j :: 0 <= i < j < |t.kids| ==> Nodes(t.kids[i]) !! Nodes(t.kids[j]))
  }

  // ---------- Flattening ----------

  lemma {:induction false} AllLeavesConcat<P, E>(a: seq<Tree<P, E>>, b: seq<Tree<P, E>>)
    ensures AllLeaves(a + b) == AllLeaves(a) + AllLeaves(b)
  {
    if a == [] {
      assert a + b == b;
    } else {
      assert (a + b)[1..] == a[1..] + b;
      AllLeavesConcat(a[1..], b);
    }
  }

  lemma {:induction false} FlatConcat<P, E>(a: seq<Tree<P, E>>, b: seq<Tree<P, E>>)
    ensures Flat(a + b) == Flat(a) + Flat(b)
  {
    if a == [] {
      assert a + b == b;
    } else {
      assert (a + b)[1..] == a[1..] + b;
      FlatConcat(a[1..], b);
    }
  }

  lemma {:induction false} AllNodesConcat<P, E>(a: seq<Tree<P, E>>, b: seq<Tree<P, E>>)
    ensures AllNodes(a + b) == AllNodes(a) + AllNodes(b)
  {
    if a == [] {
      assert a + b == b;
    } else {
      assert (a + b)[1..] == a[1..] + b;
      AllNodesConcat(a[1..], b);
    }
  }

  lemma {:induction false} AllNodesHolds<P, E>(ts: seq<Tree<P, E>>, i: nat)
    requires i < |ts|
    ensures Nodes(ts[i]) <= AllNodes(ts)
  {
    if i > 0 {
      AllNodesHolds(ts[1..], i - 1);
    }
  }

  lemma {:induction false} AllNodesFinds<P, E>(ts: seq<Tree<P, E>>, p: P) returns (i: nat)
    requires p in AllNodes(ts)
    ensures i < |ts| && p in Nodes(ts[i])
  {
    if p in Nodes(ts[0]) {
      i := 0;
    } else {
      i := AllNodesFinds(ts[1..], p);
      i := i + 1;
    }
  }

  lemma SplitAt<T>(s: seq<T>, c: nat)
    requires c < |s|
    ensures s == s[..c] + [s[c]] + s[c + 1..]
    ensures s[..c + 1] == s[..c] + [s[c]]
  {
  }

  /** A cut inside the middle of three runs. */
  lemma SplitRun<T>(a: seq<T>, b: seq<T>, c: seq<T>, p: nat)
    requires p <= |b|
    ensures (a + b + c)[..|a| + p] == a + b[..p]
    ensures (a + b + c)[|a| + p..] == b[p..] + c
  {
  }

  lemma SplitRunPast<T>(a: seq<T>, b: seq<T>, c: seq<T>, p: nat)
    requires p < |b|
    ensures (a + b + c)[..|a| + p] == a + b[..p]
    ensures (a + b + c)[|a| + p] == b[p]
    ensures (a + b + c)[|a| + p + 1..] == b[p + 1..] + c
  {
  }

  lemma OneLeaves<P, E>(t: Tree<P, E>)
    ensures AllLeaves([t]) == Leaves(t)
  {
    assert [t][1..] == [];
  }

  /** The leaves of `ts` around those of its child `c`. */
  lemma LeavesAround<P, E>(ts: seq<Tree<P, E>>, c: nat)
    requires c < |ts|
    ensures AllLeaves(ts) == AllLeaves(ts[..c]) + Leaves(ts[c]) + AllLeaves(ts[c + 1..])
    ensures AllLeaves(ts[..c + 1]) == AllLeaves(ts[..c]) + Leaves(ts[c])
  {
    SplitAt(ts, c);
    AllLeavesConcat(ts[..c] + [ts[c]], ts[c + 1..]);
    AllLeavesConcat(ts[..c], [ts[c]]);
    OneLeaves(ts[c]);
  }

  lemma {:induction false} LeavesAreLeaves<P, E>(t: Tree<P, E>, h: nat)
    requires Shape(t, h)
    ensures Leaves(t) != []
    ensures forall i :: 0 <= i < |Leaves(t)| ==> Leaves(t)[i].Leaf? && |Leaves(t)[i].entries| <= FANOUT
    decreases h, 0
  {
    if t.Inner? {
      AllLeavesAreLeaves(t.kids, h - 1);
    }
  }

  lemma {:induction false} AllLeavesAreLeaves<P, E>(ts: seq<Tree<P, E>>, h: nat)
    requires forall i :: 0 <= i < |ts| ==> Shape(ts[i], h)
    ensures ts != [] ==> AllLeaves(ts) != []
    ensures forall i :: 0 <= i < |AllLeaves(ts)| ==> AllLeaves(ts)[i].Leaf? && |AllLeaves(ts)[i].entries| <= FANOUT
    decreases h, 1 + |ts|
  {
    if ts != [] {
      LeavesAreLeaves(ts[0], h);
      AllLeavesAreLeaves(ts[1..], h);
    }
  }

  // ---------- Order ----------

  lemma SortedJoin<E>(weight: E -> real, a: seq<E>, b: seq<E>, lo: real, mid: real, hi: real)
    requires Sorted(weight, a) && Within(weight, a, lo, mid) && Sorted(weight, b) && Within(weight, b, mid, hi) && lo <= mid <= hi
    ensures Sorted(weight, a + b) && Within(weight, a + b, lo, hi)
  {
  }

  lemma WithinJoin<E>(weight: E -> real, a: seq<E>, b: seq<E>, lo: real, mid: real, hi: real)
    requires Within(weight, a, lo, mid) && Within(weight, b, mid, hi) && lo <= mid <= hi
    ensures Within(weight, a + b, lo, hi)
  {
  }

  lemma BelowJoin<E>(weight: E -> real, a: seq<E>, b: seq<E>, w: real)
    ensures AllBelow(weight, a + b, w) <==> AllBelow(weight, a, w) && AllBelow(weight, b, w)
    ensures NoneBelow(weight, a + b, w) <==> NoneBelow(weight, a, w) && NoneBelow(weight, b, w)
    ensures AllAbove(weight, a + b, w) <==> AllAbove(weight, a, w) && AllAbove(weight, b, w)
  {
    assert forall i :: 0 <= i < |a| ==> (a + b)[i] == a[i];
    assert forall i :: 0 <= i < |b| ==> (a + b)[|a| + i] == b[i];
  }

  lemma {:induction false} OrderedEntries<P, E>(weight: E -> real, t: Tree<P, E>, h: nat, lo: real, hi: real)
    requires Shape(t, h) && Ordered(weight, t, lo, hi) && lo < hi
    ensures Sorted(weight, Entries(t)) && Within(weight, Entries(t), lo, hi)
    decreases h, 1
  {
    if t.Leaf? {
      OneFlat(t);
    } else {
      assert t.kids[0..] == t.kids;
      OrderedSuffix(weight, t, h, lo, hi, 0);
    }
  }

  lemma {:induction false} OrderedSuffix<P, E>(weight: E -> real, t: Tree<P, E>, h: nat, lo: real, hi: real, i: nat)
    requires Shape(t, h) && Ordered(weight, t, lo, hi) && lo < hi && t.Inner? && i <= |t.kids|
    ensures Sorted(weight, Flat(AllLeaves(t.kids[i..])))
    ensures i < |t.kids| ==> Within(weight, Flat(AllLeaves(t.kids[i..])), Low(weight, t.keys, i, lo), hi)
    ensures i == |t.kids| ==> Flat(AllLeaves(t.kids[i..])) == []
    decreases h, 0, |t.kids| + 1 - i
  {
    if i < |t.kids| {
      OrderedSuffix(weight, t, h, lo, hi, i + 1);
      OrderedEntries(weight, t.kids[i], h - 1, Low(weight, t.keys, i, lo), High(weight, t.keys, i, hi));
      assert t.kids[i..][1..] == t.kids[i + 1..];
      FlatConcat(Leaves(t.kids[i]), AllLeaves(t.kids[i + 1..]));
      SortedJoin(weight, Entries(t.kids[i]), Flat(AllLeaves(t.kids[i + 1..])), Low(weight, t.keys, i, lo), High(weight, t.keys, i, hi), hi);
    }
  }

  lemma {:induction false} OrderedPrefix<P, E>(weight: E -> real, t: Tree<P, E>, h: nat, lo: real, hi: real, i: nat)
    requires Shape(t, h) && Ordered(weight, t, lo, hi) && lo < hi && t.Inner? && i < |t.kids|
    ensures Within(weight, Flat(AllLeaves(t.kids[..i])), lo, Low(weight, t.keys, i, lo))
    decreases i
  {
    if i > 0 {
      OrderedPrefix(weight, t, h, lo, hi, i - 1);
      OrderedEntries(weight, t.kids[i - 1], h - 1, Low(weight, t.keys, i - 1, lo), High(weight, t.keys, i - 1, hi));
      LeavesAround(t.kids, i - 1);
      FlatConcat(AllLeaves(t.kids[..i - 1]), Leaves(t.kids[i - 1]));
      WithinJoin(weight, Flat(AllLeaves(t.kids[..i - 1])), Entries(t.kids[i - 1]), lo,
                 Low(weight, t.keys, i - 1, lo), Low(weight, t.keys, i, lo));
    }
  }

  // ---------- The way down to a key ----------

  /** The last of the first `n` children, `n` at least one, whose first key is not past `w`. */
  ghost function Child<E>(weight: E -> real, keys: seq<E>, n: nat, w: real): (c: nat)
    requires n <= |keys|
    ensures n > 0 ==> c < n
    ensures c > 0 ==> c < n && weight(keys[c]) <= w
  {
    if n <= 1 then 0 else if weight(keys[n - 1]) <= w then n - 1 else Child(weight, keys, n - 1, w)
  }

  lemma {:induction false} ChildIs<E>(weight: E -> real, keys: seq<E>, n: nat, w: real, c: nat, lo: real, hi: real)
    requires c < n <= |keys| && Separated(weight, keys, lo, hi)
    requires c > 0 ==> weight(keys[c]) <= w
    requires c + 1 < n ==> w < weight(keys[c + 1])
    ensures Child(weight, keys, n, w) == c
  {
    if n > c + 1 {
      ChildIs(weight, keys, n - 1, w, c, lo, hi);
    }
  }

  lemma {:induction false} ChildBounds<E>(weight: E -> real, keys: seq<E>, n: nat, w: real, lo: real, hi: real)
    requires 0 < n <= |keys| && Separated(weight, keys, lo, hi) && lo <= w < hi
    ensures Low(weight, keys, Child(weight, keys, n, w), lo) <= w
    ensures Child(weight, keys, n, w) + 1 < n ==> w < weight(keys[Child(weight, keys, n, w) + 1])
  {
    if n > 1 && weight(keys[n - 1]) > w {
      ChildBounds(weight, keys, n - 1, w, lo, hi);
    }
  }

  /** The number of leading entries before `w`. */
  ghost function Place<E>(weight: E -> real, es: seq<E>, w: real): (p: nat)
    ensures p <= |es|
    ensures forall i :: 0 <= i < p ==> weight(es[i]) < w
    ensures p < |es| ==> weight(es[p]) >= w
  {
    if es == [] || weight(es[0]) >= w then 0 else 1 + Place(weight, es[1..], w)
  }

  ghost predicate AllBelow<E>(weight: E -> real, s: seq<E>, w: real)
  {
    forall i :: 0 <= i < |s| ==> weight(s[i]) < w
  }

  ghost predicate NoneBelow<E>(weight: E -> real, s: seq<E>, w: real)
  {
    forall i :: 0 <= i < |s| ==> weight(s[i]) >= w
  }

  ghost predicate AllAbove<E>(weight: E -> real, s: seq<E>, w: real)
  {
    forall i :: 0 <= i < |s| ==> weight(s[i]) > w
  }

  /** The elements of `s` before `w` are its first `r`. */
  ghost predicate IsRank<E>(weight: E -> real, s: seq<E>, r: nat, w: real)
  {
    r <= |s| && AllBelow(weight, s[..r], w) && NoneBelow(weight, s[r..], w)
  }

  ghost predicate HasAt<E>(weight: E -> real, s: seq<E>, r: nat, w: real)
  {
    r < |s| && weight(s[r]) == w
  }

  /** Which of the leaves of `t` a search for `w` ends in. */
  ghost function LeafIndex<P, E>(weight: E -> real, t: Tree<P, E>, h: nat, w: real): (i: nat)
    requires Shape(t, h)
    ensures i < |Leaves(t)|
    decreases h
  {
    match t
    case Leaf(_, _) => 0
    case Inner(_, kids, _, keys) =>
      var c := Child(weight, keys, |keys|, w);
      LeavesAround(kids, c);
      |AllLeaves(kids[..c])| + LeafIndex(weight, kids[c], h - 1, w)
  }

  /** The leaves on either side of the one a search for `w` ends in, through child `c`. */
  lemma LeafIndexSides<P, E>(weight: E -> real, t: Tree<P, E>, h: nat, w: real)
    requires Shape(t, h) && t.Inner?
    ensures var c := Child(weight, t.keys, |t.keys|, w); var kid := t.kids[c];
            var i, j := LeafIndex(weight, t, h, w), LeafIndex(weight, kid, h - 1, w);
            && Leaves(t)[..i] == AllLeaves(t.kids[..c]) + Leaves(kid)[..j]
            && Leaves(t)[i] == Leaves(kid)[j]
            && Leaves(t)[i + 1..] == Leaves(kid)[j + 1..] + AllLeaves(t.kids[c + 1..])
  {
    hide AllLeaves, Child;
    var c := Child(weight, t.keys, |t.keys|, w);
    LeavesAround(t.kids, c);
    var kid := t.kids[c];
    SplitRunPast(AllLeaves(t.kids[..c]), Leaves(kid), AllLeaves(t.kids[c + 1..]),
                 LeafIndex(weight, kid, h - 1, w));
  }

  /** Every entry in the leaves before that leaf is before `w`, and every entry after it is past `w`. */
  lemma {:induction false} LeafIndexCuts<P, E>(weight: E -> real, t: Tree<P, E>, h: nat, lo: real, hi: real, w: real)
    requires Shape(t, h) && Ordered(weight, t, lo, hi) && lo <= w < hi
    ensures AllBelow(weight, Flat(Leaves(t)[..LeafIndex(weight, t, h, w)]), w)
    ensures AllAbove(weight, Flat(Leaves(t)[LeafIndex(weight, t, h, w) + 1..]), w)
    decreases h
  {
    if t.Inner? {
      hide Leaves, AllLeaves, Flat, LeafIndex, AllBelow, AllAbove, Child;
      var c := Child(weight, t.keys, |t.keys|, w);
      var kid, before, after := t.kids[c], AllLeaves(t.kids[..c]), AllLeaves(t.kids[c + 1..]);
      StepsInto(weight, t, h, lo, hi, w, c);
      hide *;
      LeafIndexCuts(weight, kid, h - 1, Low(weight, t.keys, c, lo), High(weight, t.keys, c, hi), w);
      LeafIndexSides(weight, t, h, w);
      var j := LeafIndex(weight, kid, h - 1, w);
      FlatConcat(before, Leaves(kid)[..j]);
      FlatConcat(Leaves(kid)[j + 1..], after);
      BelowJoin(weight, Flat(before), Flat(Leaves(kid)[..j]), w);
      BelowJoin(weight, Flat(Leaves(kid)[j + 1..]), Flat(after), w);
      BesideChild(weight, t, h, lo, hi, w);
    }
  }

  lemma StepsInto<P, E>(weight: E -> real, t: Tree<P, E>, h: nat, lo: real, hi: real, w: real, c: nat)
    requires t.Inner? && Shape(t, h) && Ordered(weight, t, lo, hi) && lo <= w < hi
    requires c == Child(weight, t.keys, |t.keys|, w)
    ensures h > 0 && c < |t.kids| == |t.keys| && Shape(t.kids[c], h - 1)
    ensures Ordered(weight, t.kids[c], Low(weight, t.keys, c, lo), High(weight, t.keys, c, hi))
    ensures Low(weight, t.keys, c, lo) <= w < High(weight, t.keys, c, hi)
  {
    ChildBounds(weight, t.keys, |t.keys|, w, lo, hi);
  }

  lemma BesideChild<P, E>(weight: E -> real, t: Tree<P, E>, h: nat, lo: real, hi: real, w: real)
    requires Shape(t, h) && Ordered(weight, t, lo, hi) && t.Inner? && lo <= w < hi
    ensures var c := Child(weight, t.keys, |t.keys|, w);
            AllBelow(weight, Flat(AllLeaves(t.kids[..c])), w) && AllAbove(weight, Flat(AllLeaves(t.kids[c + 1..])), w)
  {
    hide AllLeaves, Leaves, Flat, Child;
    var c := Child(weight, t.keys, |t.keys|, w);
    StepsInto(weight, t, h, lo, hi, w, c);
    OrderedPrefix(weight, t, h, lo, hi, c);
    OrderedSuffix(weight, t, h, lo, hi, c + 1);
  }

  /** The number of entries of `t` before `w`: those of the leaves before its leaf, and its place there. */
  ghost function Rank<P, E>(weight: E -> real, t: Tree<P, E>, h: nat, w: real): nat
    requires Shape(t, h)
  {
    var i := LeafIndex(weight, t, h, w);
    |Flat(Leaves(t)[..i])| + Place(weight, Own(Leaves(t)[i]), w)
  }

  lemma OneFlat<P, E>(t: Tree<P, E>)
    ensures Flat([t]) == Own(t)
  {
    assert [t][1..] == [];
  }

  lemma LeafOfEntries<P, E>(ls: seq<Tree<P, E>>, i: nat)
    requires i < |ls|
    ensures Flat(ls) == Flat(ls[..i]) + Own(ls[i]) + Flat(ls[i + 1..])
  {
    SplitAt(ls, i);
    FlatConcat(ls[..i] + [ls[i]], ls[i + 1..]);
    FlatConcat(ls[..i], [ls[i]]);
    OneFlat(ls[i]);
  }

  /** What is before and not before `w` around a place in one leaf. */
  lemma PlaceCuts<E>(weight: E -> real, before: seq<E>, leaf: seq<E>, after: seq<E>, w: real)
    requires Sorted(weight, leaf) && AllBelow(weight, before, w) && AllAbove(weight, after, w)
    ensures AllBelow(weight, before + leaf[..Place(weight, leaf, w)], w)
    ensures NoneBelow(weight, leaf[Place(weight, leaf, w)..] + after, w)
  {
    var p := Place(weight, leaf, w);
    BelowJoin(weight, before, leaf[..p], w);
    BelowJoin(weight, leaf[p..], after, w);
  }

  /** The entries on either side of a rank: whole leaves, and the leaf the rank lies in cut at its place. */
  lemma RankSides<P, E>(weight: E -> real, t: Tree<P, E>, h: nat, w: real)
    requires Shape(t, h)
    ensures var ls, i := Leaves(t), LeafIndex(weight, t, h, w);
            var leaf, r := Own(ls[i]), Rank(weight, t, h, w);
            && r <= |Entries(t)|
            && Entries(t)[..r] == Flat(ls[..i]) + leaf[..Place(weight, leaf, w)]
            && Entries(t)[r..] == leaf[Place(weight, leaf, w)..] + Flat(ls[i + 1..])
  {
    hide Leaves, Flat, LeafIndex, Place, ShapeUpTo;
    var ls, i := Leaves(t), LeafIndex(weight, t, h, w);
    LeafOfEntries(ls, i);
    SplitRun(Flat(ls[..i]), Own(ls[i]), Flat(ls[i + 1..]), Place(weight, Own(ls[i]), w));
  }

  /** RANK CUTS: the entries below the rank of a key are those before it. */
  lemma RankCuts<P, E>(weight: E -> real, t: Tree<P, E>, h: nat, lo: real, hi: real, w: real)
    requires Shape(t, h) && Ordered(weight, t, lo, hi) && lo <= w < hi
    ensures IsRank(weight, Entries(t), Rank(weight, t, h, w), w)
  {
    hide Leaves, Flat, LeafIndex, Place, ShapeUpTo, Ordered, AllBelow, AllAbove, NoneBelow, Sorted;
    LeafIndexCuts(weight, t, h, lo, hi, w);
    LeafIsOrdered(weight, t, h, lo, hi, w);
    RankSides(weight, t, h, w);
    var ls, i := Leaves(t), LeafIndex(weight, t, h, w);
    PlaceCuts(weight, Flat(ls[..i]), Own(ls[i]), Flat(ls[i + 1..]), w);
  }

  lemma {:induction false} LeafIsOrdered<P, E>(weight: E -> real, t: Tree<P, E>, h: nat, lo: real, hi: real, w: real)
    requires Shape(t, h) && Ordered(weight, t, lo, hi)
    ensures Sorted(weight, Own(Leaves(t)[LeafIndex(weight, t, h, w)]))
    ensures Leaves(t)[LeafIndex(weight, t, h, w)].Leaf?
    decreases h
  {
    if t.Inner? {
      LeafIndexSides(weight, t, h, w);
      var c := Child(weight, t.keys, |t.keys|, w);
      LeafIsOrdered(weight, t.kids[c], h - 1, Low(weight, t.keys, c, lo), High(weight, t.keys, c, hi), w);
    }
  }

  /** FOUND: the tree has a key exactly when the entry at its place in its leaf has it. */
  lemma FoundAtPlace<P, E>(weight: E -> real, t: Tree<P, E>, h: nat, lo: real, hi: real, w: real)
    requires Shape(t, h) && Ordered(weight, t, lo, hi) && lo <= w < hi
    ensures var leaf := Own(Leaves(t)[LeafIndex(weight, t, h, w)]);
            (exists e :: e in Entries(t) && weight(e) == w)
            <==> Place(weight, leaf, w) < |leaf| && weight(leaf[Place(weight, leaf, w)]) == w
  {
    hide Leaves, Flat, LeafIndex, Place, ShapeUpTo, Ordered, AllBelow, AllAbove, Sorted;
    LeafIndexCuts(weight, t, h, lo, hi, w);
    LeafIsOrdered(weight, t, h, lo, hi, w);
    var ls, i := Leaves(t), LeafIndex(weight, t, h, w);
    LeafOfEntries(ls, i);
    FoundInRun(weight, Flat(ls[..i]), Own(ls[i]), Flat(ls[i + 1..]), w);
  }

  lemma FoundInRun<E>(weight: E -> real, before: seq<E>, leaf: seq<E>, after: seq<E>, w: real)
    requires Sorted(weight, leaf) && AllBelow(weight, before, w) && AllAbove(weight, after, w)
    ensures (exists e :: e in before + leaf + after && weight(e) == w)
            <==> Place(weight, leaf, w) < |leaf| && weight(leaf[Place(weight, leaf, w)]) == w
  {
    var p := Place(weight, leaf, w);
    if p < |leaf| && weight(leaf[p]) == w {
      assert leaf[p] in before + leaf + after;
    }
    if e :| e in before + leaf + after && weight(e) == w {
      assert e in leaf;
      var k :| 0 <= k < |leaf| && leaf[k] == e;
    }
  }

  // ---------- Sums of sizes ----------

  ghost function Sum(s: seq<nat>): nat
  {
    if s == [] then 0 else s[0] + Sum(s[1..])
  }

  lemma {:induction false} SumSnoc(s: seq<nat>, n: nat)
    ensures Sum(s + [n]) == Sum(s) + n
  {
    if s == [] {
      assert [n][1..] == [];
    } else {
      assert (s + [n])[1..] == s[1..] + [n];
      SumSnoc(s[1..], n);
    }
  }

  lemma {:induction false} SumIsCount<P, E>(kids: seq<Tree<P, E>>, sizes: seq<nat>)
    requires |kids| == |sizes|
    requires forall i :: 0 <= i < |kids| ==> sizes[i] == |Entries(kids[i])|
    ensures Sum(sizes) == |Flat(AllLeaves(kids))|
  {
    if kids != [] {
      assert sizes[0] == |Entries(kids[0])|;
      forall i | 0 <= i < |kids[1..]|
        ensures sizes[1..][i] == |Entries(kids[1..][i])|
      {
        assert sizes[i + 1] == |Entries(kids[i + 1])|;
      }
      SumIsCount(kids[1..], sizes[1..]);
      FlatConcat(Leaves(kids[0]), AllLeaves(kids[1..]));
    }
  }

  /** A child's entries start where the sizes before it end. */
  lemma EntriesAround<P, E>(t: Tree<P, E>, h: nat, c: nat)
    requires Shape(t, h) && t.Inner? && c < |t.kids|
    ensures Sum(t.sizes[..c]) == |Flat(AllLeaves(t.kids[..c]))|
    ensures Entries(t) == Flat(AllLeaves(t.kids[..c])) + Entries(t.kids[c]) + Flat(AllLeaves(t.kids[c + 1..]))
  {
    SumIsCount(t.kids[..c], t.sizes[..c]);
    LeavesAround(t.kids, c);
    FlatConcat(AllLeaves(t.kids[..c]) + Leaves(t.kids[c]), AllLeaves(t.kids[c + 1..]));
    FlatConcat(AllLeaves(t.kids[..c]), Leaves(t.kids[c]));
  }

  lemma RankBelow<P, E>(weight: E -> real, t: Tree<P, E>, h: nat, w: real)
    requires Shape(t, h) && t.Inner?
    ensures var c := Child(weight, t.keys, |t.keys|, w);
            Rank(weight, t, h, w) == Sum(t.sizes[..c]) + Rank(weight, t.kids[c], h - 1, w)
  {
    var c := Child(weight, t.keys, |t.keys|, w);
    EntriesAround(t, h, c);
    LeafIndexSides(weight, t, h, w);
    FlatConcat(AllLeaves(t.kids[..c]), Leaves(t.kids[c])[..LeafIndex(weight, t.kids[c], h - 1, w)]);
  }

  /** The place of `w` lies between an entry before it and one not before it. */
  lemma PlaceIs<E>(weight: E -> real, es: seq<E>, w: real, p: nat)
    requires p <= |es| && Sorted(weight, es)
    requires p > 0 ==> weight(es[p - 1]) < w
    requires p < |es| ==> weight(es[p]) >= w
    ensures Place(weight, es, w) == p
  {
    var q := Place(weight, es, w);
  }

  lemma {:induction false} SumPrefix(s: seq<nat>, i: nat)
    requires i <= |s|
    ensures Sum(s[..i]) <= Sum(s)
    ensures i < |s| ==> Sum(s[..i + 1]) == Sum(s[..i]) + s[i]
  {
    if i < |s| {
      assert s[..i + 1] == s[..i] + [s[i]];
      SumSnoc(s[..i], s[i]);
    }
    if i == |s| {
      assert s[..i] == s;
    } else if i > 0 {
      assert s[..i][1..] == s[1..][..i - 1];
      SumPrefix(s[1..], i - 1);
    }
  }

  /** The entry of a rank is the entry of what is left of it, in the child whose sizes pass it. */
  lemma EntryInChild<P, E>(t: Tree<P, E>, h: nat, c: nat, rank: nat)
    requires Shape(t, h) && t.Inner? && c < |t.kids|
    requires Sum(t.sizes[..c]) <= rank < Sum(t.sizes[..c]) + t.sizes[c]
    ensures rank < |Entries(t)| && Entries(t)[rank] == Entries(t.kids[c])[rank - Sum(t.sizes[..c])]
  {
    EntriesAround(t, h, c);
  }

  lemma SizesCount<P, E>(t: Tree<P, E>, h: nat)
    requires Shape(t, h) && t.Inner?
    ensures Sum(t.sizes) == |Entries(t)|
  {
    SumIsCount(t.kids, t.sizes);
  }
}
