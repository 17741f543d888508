/** An insertion into the ordered index, as a change of its value, and a removal. */
module KeyTreeGrowth {
  import opened KeyTreeModel

  /** What an insertion made of a node: the node, or two and the first key below the second. */
  datatype Grown<P, E> =
    | Took(tree: Tree<P, E>)
    | Split(left: Tree<P, E>, key: E, right: Tree<P, E>)

  ghost function Trees<P, E>(g: Grown<P, E>): (ts: seq<Tree<P, E>>)
    ensures |ts| == if g.Took? then 1 else 2
  {
    if g.Took? then [g.tree] else [g.left, g.right]
  }

  // ---------- A node that outgrew its fanout ----------

  ghost predicate Over<P, E>(t: Tree<P, E>)
  {
    if t.Leaf? then |t.entries| > FANOUT else |t.kids| > FANOUT
  }

  /** `t`, or when it outgrew its fanout by one, its first half and the rest in node `right`. */
  ghost function Halve<P, E>(t: Tree<P, E>, right: seq<P>, h: nat): Grown<P, E>
    requires t.Inner? ==> |t.kids| == |t.sizes| == |t.keys|
    requires Over(t) ==> h < |right|
  {
    if !Over(t) then Took(t)
    else match t
      case Leaf(at, es) => Split(Leaf(at, es[..HALF]), es[HALF], Leaf(right[h], es[HALF..]))
      case Inner(at, kids, sizes, keys) =>
        Split(Inner(at, kids[..HALF], sizes[..HALF], keys[..HALF]), keys[HALF],
              Inner(right[h], kids[HALF..], sizes[HALF..], keys[HALF..]))
  }

  lemma TwoLeaves<P, E>(a: Tree<P, E>, b: Tree<P, E>)
    ensures AllLeaves([a, b]) == Leaves(a) + Leaves(b)
  {
    assert [a, b] == [a] + [b];
    AllLeavesConcat([a], [b]);
    OneLeaves(a);
    OneLeaves(b);
  }

  lemma HalveShape<P, E>(t: Tree<P, E>, right: seq<P>, h: nat)
    requires ShapeUpTo(t, h, FANOUT + 1) && (Over(t) ==> h < |right|)
    ensures var g := Halve(t, right, h);
            && (g.Took? ==> Shape(g.tree, h))
            && (g.Split? ==> Shape(g.left, h) && Shape(g.right, h))
  {
  }

  lemma HalveLeaves<P, E>(t: Tree<P, E>, right: seq<P>, h: nat)
    requires t.Inner? && |t.kids| == |t.sizes| == |t.keys|
    requires Over(t) ==> h < |right|
    ensures AllLeaves(Trees(Halve(t, right, h))) == Leaves(t)
  {
    var g := Halve(t, right, h);
    if g.Took? {
      OneLeaves(t);
    } else {
      TwoLeaves(g.left, g.right);
      assert t.kids == t.kids[..HALF] + t.kids[HALF..];
      AllLeavesConcat(t.kids[..HALF], t.kids[HALF..]);
    }
  }

  lemma HalveEntries<P, E>(t: Tree<P, E>, right: seq<P>, h: nat)
    requires t.Leaf? && (Over(t) ==> h < |right|)
    ensures Flat(AllLeaves(Trees(Halve(t, right, h)))) == t.entries
  {
    var g := Halve(t, right, h);
    if g.Took? {
      OneLeaves(t);
      OneFlat(t);
    } else {
      TwoLeaves(g.left, g.right);
      FlatConcat([g.left], [g.right]);
      OneFlat(g.left);
      OneFlat(g.right);
    }
  }

  ghost predicate OrderedGrown<P, E>(weight: E -> real, g: Grown<P, E>, lo: real, hi: real)
  {
    match g
    case Took(tree) => Ordered(weight, tree, lo, hi)
    case Split(left, key, right) =>
      && lo < weight(key) < hi
      && Ordered(weight, left, lo, weight(key))
      && Ordered(weight, right, weight(key), hi)
  }

  lemma HalveOrdered<P, E>(weight: E -> real, t: Tree<P, E>, right: seq<P>, h: nat, lo: real, hi: real)
    requires ShapeUpTo(t, h, FANOUT + 1) && Ordered(weight, t, lo, hi) && (Over(t) ==> h < |right|)
    ensures OrderedGrown(weight, Halve(t, right, h), lo, hi)
  {
    var g := Halve(t, right, h);
    if g.Split? && t.Leaf? {
      assert weight(t.entries[0]) < weight(t.entries[HALF]);
    } else if g.Split? {
      HalveInnerOrdered(weight, t, lo, hi);
    }
  }

  lemma HalveInnerOrdered<P, E>(weight: E -> real, t: Tree<P, E>, lo: real, hi: real)
    requires t.Inner? && Ordered(weight, t, lo, hi) && |t.kids| > FANOUT && |t.sizes| == |t.kids|
    ensures forall p :: Ordered(weight, Inner(p, t.kids[..HALF], t.sizes[..HALF], t.keys[..HALF]), lo, weight(t.keys[HALF]))
    ensures forall p :: Ordered(weight, Inner(p, t.kids[HALF..], t.sizes[HALF..], t.keys[HALF..]), weight(t.keys[HALF]), hi)
  {
    var mid := weight(t.keys[HALF]);
    var a, b := t.keys[..HALF], t.keys[HALF..];
    forall i | 0 <= i < HALF
      ensures Ordered(weight, t.kids[i], Low(weight, a, i, lo), High(weight, a, i, mid))
    {
      assert Ordered(weight, t.kids[i], Low(weight, t.keys, i, lo), High(weight, t.keys, i, hi));
    }
    forall i | 0 <= i < |b|
      ensures Ordered(weight, t.kids[HALF + i], Low(weight, b, i, mid), High(weight, b, i, hi))
    {
      assert Ordered(weight, t.kids[HALF + i], Low(weight, t.keys, HALF + i, lo), High(weight, t.keys, HALF + i, hi));
    }
  }

  // ---------- An inner node taking what its child became ----------

  ghost function Size<P, E>(t: Tree<P, E>): nat
  {
    match t
    case Leaf(_, es) => |es|
    case Inner(_, _, sizes, _) => Sum(sizes)
  }

  ghost function Put<T>(s: seq<T>, c: nat, mid: seq<T>): (r: seq<T>)
    requires c < |s|
    ensures |r| == |s| - 1 + |mid|
  {
    s[..c] + mid + s[c + 1..]
  }

  /** Inner node `t` once its child `c` became `g`. */
  ghost function Widen<P, E>(t: Tree<P, E>, c: nat, g: Grown<P, E>): (r: Tree<P, E>)
    requires t.Inner? && |t.kids| == |t.sizes| == |t.keys| && c < |t.kids|
    ensures r.Inner? && |r.kids| == |r.sizes| == |r.keys|
  {
    match g
    case Took(tree) => Inner(t.at, Put(t.kids, c, [tree]), Put(t.sizes, c, [t.sizes[c] + 1]), t.keys)
    case Split(left, key, right) =>
      Inner(t.at, Put(t.kids, c, [left, right]), Put(t.sizes, c, [Size(left), Size(right)]),
            Put(t.keys, c, [t.keys[c], key]))
  }

  lemma SizeIsCount<P, E>(t: Tree<P, E>, h: nat)
    requires Shape(t, h)
    ensures Size(t) == |Entries(t)|
  {
    if t.Leaf? {
      OneFlat(t);
    } else {
      SumIsCount(t.kids, t.sizes);
    }
  }

  ghost predicate ShapeGrown<P, E>(g: Grown<P, E>, h: nat)
  {
    forall i :: 0 <= i < |Trees(g)| ==> Shape(Trees(g)[i], h)
  }

  lemma WidenShape<P, E>(t: Tree<P, E>, h: nat, c: nat, g: Grown<P, E>)
    requires Shape(t, h) && t.Inner? && c < |t.kids| && ShapeGrown(g, h - 1)
    requires |Flat(AllLeaves(Trees(g)))| == |Entries(t.kids[c])| + 1
    ensures ShapeUpTo(Widen(t, c, g), h, FANOUT + 1)
  {
    hide Leaves, AllLeaves, Flat;
    var r, ts := Widen(t, c, g), Trees(g);
    if g.Took? {
      assert Shape(ts[0], h - 1);
      OneLeaves(g.tree);
    } else {
      assert Shape(ts[0], h - 1) && Shape(ts[1], h - 1);
      SizeIsCount(g.left, h - 1);
      SizeIsCount(g.right, h - 1);
    }
    forall i | 0 <= i < |r.kids|
      ensures Shape(r.kids[i], h - 1) && r.sizes[i] == |Entries(r.kids[i])|
    {
      if i < c {
        assert r.kids[i] == t.kids[i];
      } else if i >= c + |ts| {
        assert r.kids[i] == t.kids[i - |ts| + 1];
      }
    }
  }

  lemma WidenLeaves<P, E>(t: Tree<P, E>, c: nat, g: Grown<P, E>)
    requires t.Inner? && |t.kids| == |t.sizes| == |t.keys| && c < |t.kids|
    ensures Leaves(Widen(t, c, g)) == AllLeaves(t.kids[..c]) + AllLeaves(Trees(g)) + AllLeaves(t.kids[c + 1..])
  {
    AllLeavesConcat(t.kids[..c] + Trees(g), t.kids[c + 1..]);
    AllLeavesConcat(t.kids[..c], Trees(g));
  }

  lemma WidenOrdered<P, E>(weight: E -> real, t: Tree<P, E>, c: nat, g: Grown<P, E>, lo: real, hi: real)
    requires t.Inner? && |t.sizes| == |t.kids| && Ordered(weight, t, lo, hi) && c < |t.kids|
    requires OrderedGrown(weight, g, Low(weight, t.keys, c, lo), High(weight, t.keys, c, hi))
    ensures Ordered(weight, Widen(t, c, g), lo, hi)
  {
    var r := Widen(t, c, g);
    if g.Took? {
      hide Separated, Low, High;
      forall i | 0 <= i < |r.kids|
        ensures Ordered(weight, r.kids[i], Low(weight, r.keys, i, lo), High(weight, r.keys, i, hi))
      {
        assert i != c ==> r.kids[i] == t.kids[i];
      }
    } else {
      hide Separated;
      SeparatedPut(weight, t.keys, c, g.key, lo, hi);
      forall i | 0 <= i < |r.kids|
        ensures Ordered(weight, r.kids[i], Low(weight, r.keys, i, lo), High(weight, r.keys, i, hi))
      {
        if i < c {
          assert r.kids[i] == t.kids[i];
        } else if i > c + 1 {
          assert r.kids[i] == t.kids[i - 1] && r.keys[i] == t.keys[i - 1];
        }
      }
    }
  }

  lemma SeparatedPut<E>(weight: E -> real, keys: seq<E>, c: nat, key: E, lo: real, hi: real)
    requires c < |keys| && Separated(weight, keys, lo, hi)
    requires Low(weight, keys, c, lo) < weight(key) < High(weight, keys, c, hi)
    ensures Separated(weight, Put(keys, c, [keys[c], key]), lo, hi)
  {
    var r := Put(keys, c, [keys[c], key]);
    assert forall i :: 0 <= i <= c ==> r[i] == keys[i];
    assert r[c + 1] == key;
    assert forall i :: c + 1 < i < |r| ==> r[i] == keys[i - 1];
  }

  // ---------- An insertion, from the leaf up ----------

  /** How many nodes of the path to `w` an insertion splits: the full ones, from the leaf up. */
  ghost function Splits<P, E>(weight: E -> real, t: Tree<P, E>, h: nat, w: real): (n: nat)
    requires Shape(t, h)
    ensures n <= h + 1
    decreases h
  {
    match t
    case Leaf(_, es) => if |es| == FANOUT then 1 else 0
    case Inner(_, kids, _, keys) =>
      var below := Splits(weight, kids[Child(weight, keys, |keys|, w)], h - 1, w);
      if below == h && |kids| == FANOUT then h + 1 else below
  }

  /** `t` with `e` put in its place; the node a split makes `h` levels up is `room[h]`. */
  ghost function Insert<P, E>(weight: E -> real, t: Tree<P, E>, h: nat, e: E, room: seq<P>): (g: Grown<P, E>)
    requires Shape(t, h) && Splits(weight, t, h, weight(e)) <= |room|
    ensures g.Split? <==> Splits(weight, t, h, weight(e)) == h + 1
    decreases h
  {
    match t
    case Leaf(at, es) =>
      Halve(PutEntry(t, Place(weight, es, weight(e)), e), room, h)
    case Inner(at, kids, sizes, keys) =>
      var c := Child(weight, keys, |keys|, weight(e));
      Halve(Widen(t, c, Insert(weight, kids[c], h - 1, e, room)), room, h)
  }

  ghost function PutEntry<P, E>(leaf: Tree<P, E>, p: nat, e: E): Tree<P, E>
    requires leaf.Leaf? && p <= |leaf.entries|
  {
    leaf.(entries := leaf.entries[..p] + [e] + leaf.entries[p..])
  }

  /** What became of the leaf an insertion put its entry in. */
  ghost function GrownLeaf<P, E>(weight: E -> real, leaf: Tree<P, E>, e: E, room: seq<P>): Grown<P, E>
    requires leaf.Leaf? && (|leaf.entries| >= FANOUT ==> 0 < |room|)
  {
    Halve(PutEntry(leaf, Place(weight, leaf.entries, weight(e)), e), room, 0)
  }

  lemma {:induction false} SplitsAtLeaf<P, E>(weight: E -> real, t: Tree<P, E>, h: nat, w: real)
    requires Shape(t, h)
    ensures Leaves(t)[LeafIndex(weight, t, h, w)].Leaf?
    ensures |Own(Leaves(t)[LeafIndex(weight, t, h, w)])| <= FANOUT
    ensures |Own(Leaves(t)[LeafIndex(weight, t, h, w)])| == FANOUT <==> Splits(weight, t, h, w) > 0
    decreases h
  {
    if t.Inner? {
      LeafIndexSides(weight, t, h, w);
      SplitsAtLeaf(weight, t.kids[Child(weight, t.keys, |t.keys|, w)], h - 1, w);
    }
  }

  lemma Regroup<T>(a: seq<T>, x: seq<T>, mid: seq<T>, y: seq<T>, b: seq<T>)
    ensures a + (x + mid + y) + b == (a + x) + mid + (y + b)
  {
  }

  /** Leaves `ls` with leaf `i` grown by `e`. */
  ghost function Regrown<P, E>(weight: E -> real, ls: seq<Tree<P, E>>, i: nat, e: E, room: seq<P>): seq<Tree<P, E>>
    requires i < |ls| && ls[i].Leaf? && (|ls[i].entries| >= FANOUT ==> 0 < |room|)
  {
    ls[..i] + AllLeaves(Trees(GrownLeaf(weight, ls[i], e, room))) + ls[i + 1..]
  }

  lemma RegrownBetween<P, E>(weight: E -> real, a: seq<Tree<P, E>>, ls: seq<Tree<P, E>>, b: seq<Tree<P, E>>,
                             j: nat, all: seq<Tree<P, E>>, i: nat, e: E, room: seq<P>)
    requires j < |ls| && ls[j].Leaf? && (|ls[j].entries| >= FANOUT ==> 0 < |room|)
    requires all == a + ls + b && i == |a| + j
    ensures all[i] == ls[j] && Regrown(weight, all, i, e, room) == a + Regrown(weight, ls, j, e, room) + b
  {
    SplitRunPast(a, ls, b, j);
    Regroup(a, ls[..j], AllLeaves(Trees(GrownLeaf(weight, ls[j], e, room))), ls[j + 1..], b);
  }

  /** The leaves of `t` with the one a search for the key of `e` ends in grown by it. */
  ghost function GrownLeaves<P, E>(weight: E -> real, t: Tree<P, E>, h: nat, e: E, room: seq<P>): seq<Tree<P, E>>
    requires Shape(t, h) && Splits(weight, t, h, weight(e)) <= |room|
  {
    SplitsAtLeaf(weight, t, h, weight(e));
    Regrown(weight, Leaves(t), LeafIndex(weight, t, h, weight(e)), e, room)
  }

  /** One leaf more at most, and none in a tree with no entry. */
  lemma GrownLeavesCount<P, E>(weight: E -> real, t: Tree<P, E>, h: nat, e: E, room: seq<P>)
    requires Shape(t, h) && Splits(weight, t, h, weight(e)) <= |room|
    ensures |Leaves(t)| <= |GrownLeaves(weight, t, h, e, room)| <= |Leaves(t)| + 1
    ensures Entries(t) == [] ==> |GrownLeaves(weight, t, h, e, room)| == |Leaves(t)|
  {
    hide Leaves, Splits, ShapeUpTo, Flat, AllLeaves, Place;
    SplitsAtLeaf(weight, t, h, weight(e));
    var i := LeafIndex(weight, t, h, weight(e));
    LeafCount(weight, Leaves(t)[i], e, room);
    if Entries(t) == [] {
      NoneOwned(Leaves(t), i);
    }
  }

  lemma LeafCount<P, E>(weight: E -> real, leaf: Tree<P, E>, e: E, room: seq<P>)
    requires leaf.Leaf? && (|leaf.entries| >= FANOUT ==> 0 < |room|)
    ensures |AllLeaves(Trees(GrownLeaf(weight, leaf, e, room)))| == if |leaf.entries| >= FANOUT then 2 else 1
  {
    var g := GrownLeaf(weight, leaf, e, room);
    if g.Took? {
      OneLeaves(g.tree);
    } else {
      TwoLeaves(g.left, g.right);
    }
  }

  lemma {:induction false} NoneOwned<P, E>(ls: seq<Tree<P, E>>, i: nat)
    requires Flat(ls) == [] && i < |ls|
    ensures Own(ls[i]) == []
  {
    if i > 0 {
      NoneOwned(ls[1..], i - 1);
    }
  }

  lemma GrownLeavesSides<P, E>(weight: E -> real, t: Tree<P, E>, h: nat, e: E, room: seq<P>)
    requires Shape(t, h) && t.Inner? && Splits(weight, t, h, weight(e)) <= |room|
    ensures var c := Child(weight, t.keys, |t.keys|, weight(e));
            GrownLeaves(weight, t, h, e, room)
            == AllLeaves(t.kids[..c]) + GrownLeaves(weight, t.kids[c], h - 1, e, room) + AllLeaves(t.kids[c + 1..])
  {
    var c := Child(weight, t.keys, |t.keys|, weight(e));
    var kid := t.kids[c];
    SplitsAtLeaf(weight, kid, h - 1, weight(e));
    LeavesAround(t.kids, c);
    RegrownBetween(weight, AllLeaves(t.kids[..c]), Leaves(kid), AllLeaves(t.kids[c + 1..]),
                   LeafIndex(weight, kid, h - 1, weight(e)), Leaves(t), LeafIndex(weight, t, h, weight(e)), e, room);
  }

  /** AN INSERTION CHANGES ONE LEAF: the leaves stay as they were but for the one the search ends in,
      which becomes itself with the entry, or itself and the leaf after it. */
  lemma {:induction false} InsertLeaves<P, E>(weight: E -> real, t: Tree<P, E>, h: nat, e: E, room: seq<P>)
    requires Shape(t, h) && Splits(weight, t, h, weight(e)) <= |room|
    ensures AllLeaves(Trees(Insert(weight, t, h, e, room))) == GrownLeaves(weight, t, h, e, room)
    decreases h
  {
    hide Leaves, AllLeaves, Child, Widen, Halve, Trees, ShapeUpTo, LeafIndex;
    if t.Inner? {
      var c := Child(weight, t.keys, |t.keys|, weight(e));
      InsertIs(weight, t, h, e, room, c);
      var g := Insert(weight, t.kids[c], h - 1, e, room);
      InsertLeaves(weight, t.kids[c], h - 1, e, room);
      GrownLeavesSides(weight, t, h, e, room);
      WidenLeaves(t, c, g);
      HalveLeaves(Widen(t, c, g), room, h);
    } else {
      InsertInLeaf(weight, t, h, e, room);
    }
  }

  lemma InsertIs<P, E>(weight: E -> real, t: Tree<P, E>, h: nat, e: E, room: seq<P>, c: nat)
    requires Shape(t, h) && Splits(weight, t, h, weight(e)) <= |room|
    requires t.Inner? && c == Child(weight, t.keys, |t.keys|, weight(e))
    ensures h > 0 && c < |t.kids| == |t.sizes| == |t.keys| && Shape(t.kids[c], h - 1)
    ensures Splits(weight, t.kids[c], h - 1, weight(e)) <= |room|
    ensures var wide := Widen(t, c, Insert(weight, t.kids[c], h - 1, e, room));
            && (Over(wide) ==> h < |room|)
            && Insert(weight, t, h, e, room) == Halve(wide, room, h)
  {
  }

  lemma InsertInLeaf<P, E>(weight: E -> real, t: Tree<P, E>, h: nat, e: E, room: seq<P>)
    requires Shape(t, h) && t.Leaf? && Splits(weight, t, h, weight(e)) <= |room|
    ensures AllLeaves(Trees(Insert(weight, t, h, e, room))) == GrownLeaves(weight, t, h, e, room)
  {
    hide Halve, Trees, AllLeaves;
    assert Leaves(t)[..0] == [] && Leaves(t)[1..] == [];
  }

  /** A sequence with `e` put at `r`. */
  function With<T>(s: seq<T>, r: nat, e: T): seq<T>
    requires r <= |s|
  {
    s[..r] + [e] + s[r..]
  }

  /** The entries after an insertion: those before, with the new one at its rank. */
  lemma InsertEntries<P, E>(weight: E -> real, t: Tree<P, E>, h: nat, e: E, room: seq<P>)
    requires Shape(t, h) && Splits(weight, t, h, weight(e)) <= |room|
    ensures var r := Rank(weight, t, h, weight(e));
            && r <= |Entries(t)|
            && Flat(AllLeaves(Trees(Insert(weight, t, h, e, room)))) == With(Entries(t), r, e)
  {
    var w := weight(e);
    var ls, i := Leaves(t), LeafIndex(weight, t, h, w);
    InsertLeaves(weight, t, h, e, room);
    SplitsAtLeaf(weight, t, h, w);
    RankSides(weight, t, h, w);
    var grown := AllLeaves(Trees(GrownLeaf(weight, ls[i], e, room)));
    HalveEntries(PutEntry(ls[i], Place(weight, ls[i].entries, w), e), room, 0);
    FlatConcat(ls[..i] + grown, ls[i + 1..]);
    FlatConcat(ls[..i], grown);
    var leaf, p := Own(ls[i]), Place(weight, Own(ls[i]), w);
    Regroup(Flat(ls[..i]), leaf[..p], [e], leaf[p..], Flat(ls[i + 1..]));
  }

  lemma {:induction false} InsertShape<P, E>(weight: E -> real, t: Tree<P, E>, h: nat, e: E, room: seq<P>)
    requires Shape(t, h) && Splits(weight, t, h, weight(e)) <= |room|
    ensures ShapeGrown(Insert(weight, t, h, e, room), h)
    decreases h, 1
  {
    if t.Leaf? {
      HalveShape(PutEntry(t, Place(weight, t.entries, weight(e)), e), room, h);
    } else {
      var c := Child(weight, t.keys, |t.keys|, weight(e));
      var g := Insert(weight, t.kids[c], h - 1, e, room);
      InsertWidens(weight, t, h, e, room);
      HalveShape(Widen(t, c, g), room, h);
    }
  }

  lemma InsertCounts<P, E>(weight: E -> real, t: Tree<P, E>, h: nat, e: E, room: seq<P>)
    requires Shape(t, h) && Splits(weight, t, h, weight(e)) <= |room|
    ensures |Flat(AllLeaves(Trees(Insert(weight, t, h, e, room))))| == |Entries(t)| + 1
  {
    InsertEntries(weight, t, h, e, room);
  }

  lemma {:induction false} InsertWidens<P, E>(weight: E -> real, t: Tree<P, E>, h: nat, e: E, room: seq<P>)
    requires Shape(t, h) && t.Inner? && Splits(weight, t, h, weight(e)) <= |room|
    ensures var c := Child(weight, t.keys, |t.keys|, weight(e));
            ShapeUpTo(Widen(t, c, Insert(weight, t.kids[c], h - 1, e, room)), h, FANOUT + 1)
    decreases h, 0
  {
    hide Child, Splits, Insert, Widen, Leaves, Flat, ShapeGrown, ShapeUpTo;
    var c := Child(weight, t.keys, |t.keys|, weight(e));
    InsertIs(weight, t, h, e, room, c);
    InsertShape(weight, t.kids[c], h - 1, e, room);
    InsertCounts(weight, t.kids[c], h - 1, e, room);
    WidenShape(t, h, c, Insert(weight, t.kids[c], h - 1, e, room));
  }

  /** Whether the entry at the place of `w` in its leaf has key `w`. */
  ghost predicate Has<P, E>(weight: E -> real, t: Tree<P, E>, h: nat, w: real)
    requires Shape(t, h)
  {
    var leaf := Own(Leaves(t)[LeafIndex(weight, t, h, w)]);
    var p := Place(weight, leaf, w);
    p < |leaf| && weight(leaf[p]) == w
  }

  lemma HasBelow<P, E>(weight: E -> real, t: Tree<P, E>, h: nat, w: real)
    requires Shape(t, h) && t.Inner?
    ensures Has(weight, t, h, w) <==> Has(weight, t.kids[Child(weight, t.keys, |t.keys|, w)], h - 1, w)
  {
    LeafIndexSides(weight, t, h, w);
  }

  // ---------- Searches ----------

  /** A search for `w` in `t` is the search for it in `s`, `skip` entries on. */
  ghost predicate Reaches<P, E>(weight: E -> real, t: Tree<P, E>, h: nat, s: Tree<P, E>, k: nat, w: real, skip: nat)
    requires Shape(t, h) && Shape(s, k)
  {
    && Rank(weight, t, h, w) == skip + Rank(weight, s, k, w)
    && Leaves(t)[LeafIndex(weight, t, h, w)] == Leaves(s)[LeafIndex(weight, s, k, w)]
    && (Has(weight, t, h, w) <==> Has(weight, s, k, w))
  }

  lemma StepReaches<P, E>(weight: E -> real, t: Tree<P, E>, h: nat, w: real, c: nat, all: Tree<P, E>, k: nat, skip: nat)
    requires t.Inner? && Shape(t, h) && c == Child(weight, t.keys, |t.keys|, w)
    requires Shape(all, k) && Reaches(weight, all, k, t, h, w, skip)
    ensures Reaches(weight, all, k, t.kids[c], h - 1, w, skip + Sum(t.sizes[..c]))
  {
    RankBelow(weight, t, h, w);
    LeafIndexSides(weight, t, h, w);
    HasBelow(weight, t, h, w);
  }

  /** What a search knows of the whole tree once it stands at a place in a leaf. */
  lemma FoundThere<P, E>(weight: E -> real, t: Tree<P, E>, h: nat, leaf: Tree<P, E>, w: real, lo: real, hi: real,
                         skip: nat, place: nat)
    requires Shape(t, h) && Shape(leaf, 0) && Reaches(weight, t, h, leaf, 0, w, skip)
    requires Ordered(weight, t, lo, hi) && lo <= w < hi && place == Place(weight, leaf.entries, w)
    ensures IsRank(weight, Entries(t), skip + place, w)
    ensures (exists e :: e in Entries(t) && weight(e) == w) <==> place < |leaf.entries| && weight(leaf.entries[place]) == w
    ensures place < |leaf.entries| ==> skip + place < |Entries(t)| && Entries(t)[skip + place] == leaf.entries[place]
    ensures Has(weight, t, h, w) <==> place < |leaf.entries| && weight(leaf.entries[place]) == w
    ensures HasAt(weight, Entries(t), skip + place, w) <==> place < |leaf.entries| && weight(leaf.entries[place]) == w
  {
    hide Leaves, Flat, LeafIndex, Place, ShapeUpTo, Ordered, Rank, IsRank, Reaches;
    RankThere(weight, t, h, leaf, w, skip, place);
    LeafThere(weight, t, h, leaf, w, skip);
    RankCuts(weight, t, h, lo, hi, w);
    FoundAtPlace(weight, t, h, lo, hi, w);
    RankSides(weight, t, h, w);
    assert place < |leaf.entries| ==> Entries(t)[skip + place] == Entries(t)[skip + place..][0];
  }

  lemma RankThere<P, E>(weight: E -> real, t: Tree<P, E>, h: nat, leaf: Tree<P, E>, w: real, skip: nat, place: nat)
    requires Shape(t, h) && Shape(leaf, 0) && Reaches(weight, t, h, leaf, 0, w, skip)
    requires place == Place(weight, leaf.entries, w)
    ensures Rank(weight, t, h, w) == skip + place
  {
    assert Leaves(leaf)[..0] == [];
  }

  lemma LeafThere<P, E>(weight: E -> real, t: Tree<P, E>, h: nat, leaf: Tree<P, E>, w: real, skip: nat)
    requires Shape(t, h) && Shape(leaf, 0) && Reaches(weight, t, h, leaf, 0, w, skip)
    ensures leaf.Leaf? && Leaves(t)[LeafIndex(weight, t, h, w)] == leaf && Own(leaf) == leaf.entries
  {
    hide LeafIndex, Rank, Has;
    assert Leaves(leaf) == [leaf];
    assert LeafIndex(weight, leaf, 0, w) < 1;
  }

  /** What is left of the entries from there. */
  lemma SoughtThere<P, E>(weight: E -> real, t: Tree<P, E>, h: nat, leaf: Tree<P, E>, w: real, lo: real, hi: real,
                          skip: nat, place: nat)
    returns (i: nat)
    requires Shape(t, h) && Shape(leaf, 0) && Reaches(weight, t, h, leaf, 0, w, skip)
    requires Ordered(weight, t, lo, hi) && lo <= w < hi && place == Place(weight, leaf.entries, w)
    ensures i < |Leaves(t)| && Leaves(t)[i] == leaf && Leaves(t)[i..] == [leaf] + Leaves(t)[i + 1..]
    ensures skip + place <= |Entries(t)|
    ensures Entries(t)[skip + place..] == leaf.entries[place..] + Flat(Leaves(t)[i..][1..])
  {
    hide Leaves, Flat, LeafIndex, Place, ShapeUpTo, Ordered, Has, Rank;
    RankThere(weight, t, h, leaf, w, skip, place);
    LeafThere(weight, t, h, leaf, w, skip);
    RankSides(weight, t, h, w);
    i := LeafIndex(weight, t, h, w);
    assert Leaves(t)[i..][1..] == Leaves(t)[i + 1..];
  }

  lemma PutEntryOrdered<P, E>(weight: E -> real, leaf: Tree<P, E>, e: E, lo: real, hi: real)
    requires leaf.Leaf? && Ordered(weight, leaf, lo, hi) && lo <= weight(e) < hi
    requires var p := Place(weight, leaf.entries, weight(e));
             p < |leaf.entries| ==> weight(leaf.entries[p]) != weight(e)
    ensures Ordered(weight, PutEntry(leaf, Place(weight, leaf.entries, weight(e)), e), lo, hi)
  {
    var es, p := leaf.entries, Place(weight, leaf.entries, weight(e));
    var r := es[..p] + [e] + es[p..];
    forall i, j | 0 <= i < j < |r|
      ensures weight(r[i]) < weight(r[j])
    {
      if j == p {
        assert r[i] == es[i];
      } else if i == p {
        assert r[j] == es[j - 1];
      }
    }
  }

  /** AN INSERTION KEEPS THE ORDER: the separators a split hands up stand between its halves. */
  lemma {:induction false} InsertOrdered<P, E>(weight: E -> real, t: Tree<P, E>, h: nat, e: E, room: seq<P>,
                                               lo: real, hi: real)
    requires Shape(t, h) && Splits(weight, t, h, weight(e)) <= |room|
    requires Ordered(weight, t, lo, hi) && lo <= weight(e) < hi
    requires !Has(weight, t, h, weight(e))
    ensures OrderedGrown(weight, Insert(weight, t, h, e, room), lo, hi)
    decreases h
  {
    if t.Leaf? {
      InsertLeafOrdered(weight, t, h, e, room, lo, hi);
    } else {
      hide Insert, Ordered, Child, Has, OrderedGrown;
      var c := Child(weight, t.keys, |t.keys|, weight(e));
      InsertIs(weight, t, h, e, room, c);
      KidOrdered(weight, t, h, weight(e), lo, hi);
      InsertOrdered(weight, t.kids[c], h - 1, e, room, Low(weight, t.keys, c, lo), High(weight, t.keys, c, hi));
      WidenOrdered(weight, t, c, Insert(weight, t.kids[c], h - 1, e, room), lo, hi);
      InsertWidens(weight, t, h, e, room);
      HalveOrdered(weight, Widen(t, c, Insert(weight, t.kids[c], h - 1, e, room)), room, h, lo, hi);
    }
  }

  lemma InsertLeafOrdered<P, E>(weight: E -> real, t: Tree<P, E>, h: nat, e: E, room: seq<P>, lo: real, hi: real)
    requires t.Leaf? && Shape(t, h) && Splits(weight, t, h, weight(e)) <= |room|
    requires Ordered(weight, t, lo, hi) && lo <= weight(e) < hi
    requires !Has(weight, t, h, weight(e))
    ensures OrderedGrown(weight, Insert(weight, t, h, e, room), lo, hi)
  {
    PutEntryOrdered(weight, t, e, lo, hi);
    HalveOrdered(weight, PutEntry(t, Place(weight, t.entries, weight(e)), e), room, h, lo, hi);
  }

  /** The child a search for `w` goes to is in order between its own bounds, which hold `w`, and has it if `t` does. */
  lemma KidOrdered<P, E>(weight: E -> real, t: Tree<P, E>, h: nat, w: real, lo: real, hi: real)
    requires t.Inner? && Shape(t, h) && Ordered(weight, t, lo, hi) && lo <= w < hi
    ensures var c := Child(weight, t.keys, |t.keys|, w);
            && Low(weight, t.keys, c, lo) <= w < High(weight, t.keys, c, hi)
            && Ordered(weight, t.kids[c], Low(weight, t.keys, c, lo), High(weight, t.keys, c, hi))
            && (Has(weight, t, h, w) <==> Has(weight, t.kids[c], h - 1, w))
  {
    hide Has;
    ChildBounds(weight, t.keys, |t.keys|, w, lo, hi);
    HasBelow(weight, t, h, w);
  }

  ghost predicate FilledGrown<P, E>(g: Grown<P, E>, least: nat)
  {
    if g.Took? then Filled(g.tree, least) else Filled(g.left, HALF) && Filled(g.right, HALF)
  }

  lemma WidenFilled<P, E>(t: Tree<P, E>, c: nat, g: Grown<P, E>, least: nat)
    requires t.Inner? && |t.kids| == |t.sizes| == |t.keys| && c < |t.kids|
    requires Filled(t, least) && FilledGrown(g, HALF)
    ensures Filled(Widen(t, c, g), least)
  {
    var r, n := Widen(t, c, g), |Trees(g)|;
    forall i | 0 <= i < |r.kids|
      ensures Filled(r.kids[i], HALF)
    {
      assert r.kids[i] == if i < c then t.kids[i] else if i < c + n then Trees(g)[i - c] else t.kids[i - n + 1];
    }
  }

  lemma HalveFilled<P, E>(t: Tree<P, E>, right: seq<P>, h: nat, least: nat)
    requires t.Inner? ==> |t.kids| == |t.sizes| == |t.keys|
    requires Filled(t, least) && (Over(t) ==> h < |right|)
    ensures FilledGrown(Halve(t, right, h), least)
  {
  }

  /** AN INSERTION KEEPS EVERY NODE HALF FULL: a split leaves each half at least HALF children. */
  lemma {:induction false} InsertFilled<P, E>(weight: E -> real, t: Tree<P, E>, h: nat, e: E, room: seq<P>, least: nat)
    requires Shape(t, h) && Splits(weight, t, h, weight(e)) <= |room|
    requires Filled(t, least)
    ensures FilledGrown(Insert(weight, t, h, e, room), least)
    decreases h
  {
    if t.Inner? {
      hide FilledGrown, Widen, Halve, Child;
      var c := Child(weight, t.keys, |t.keys|, weight(e));
      var g := Insert(weight, t.kids[c], h - 1, e, room);
      InsertFilled(weight, t.kids[c], h - 1, e, room, HALF);
      WidenFilled(t, c, g, least);
      HalveFilled(Widen(t, c, g), room, h, least);
    }
  }

  // ---------- Which nodes hold the tree an insertion made ----------

  /** The nodes of `room` an insertion that splits `n` nodes uses, none of them in `t`. */
  ghost predicate Fresh<P, E>(t: Tree<P, E>, room: seq<P>, n: nat)
    requires n <= |room|
  {
    && (forall i, j :: 0 <= i < j < n ==> room[i] != room[j])
    && (forall i :: 0 <= i < n ==> room[i] !in Nodes(t))
  }

  ghost function Taken<P>(room: seq<P>, n: nat): set<P>
    requires n <= |room|
  {
    set i | 0 <= i < n :: room[i]
  }

  /** The trees of `ts` are each apart, and from one another. */
  ghost predicate AllApart<P, E>(ts: seq<Tree<P, E>>)
  {
    && (forall i :: 0 <= i < |ts| ==> Apart(ts[i]))
    && (forall i, j :: 0 <= i < j < |ts| ==> Nodes(ts[i]) !! Nodes(ts[j]))
  }

  lemma {:induction false} NodesDisjoint<P, E>(a: seq<Tree<P, E>>, b: seq<Tree<P, E>>)
    requires forall i, j :: 0 <= i < |a| && 0 <= j < |b| ==> Nodes(a[i]) !! Nodes(b[j])
    ensures AllNodes(a) !! AllNodes(b)
  {
    forall p | p in AllNodes(a)
      ensures p !in AllNodes(b)
    {
      var i := AllNodesFinds(a, p);
      if p in AllNodes(b) {
        var j := AllNodesFinds(b, p);
        assert false;
      }
    }
  }

  lemma PutNodes<P, E>(kids: seq<Tree<P, E>>, c: nat, ts: seq<Tree<P, E>>)
    requires c < |kids|
    ensures AllNodes(kids) == AllNodes(kids[..c]) + Nodes(kids[c]) + AllNodes(kids[c + 1..])
    ensures AllNodes(Put(kids, c, ts)) == AllNodes(kids[..c]) + AllNodes(ts) + AllNodes(kids[c + 1..])
  {
    SplitAt(kids, c);
    AllNodesConcat(kids[..c] + [kids[c]], kids[c + 1..]);
    AllNodesConcat(kids[..c], [kids[c]]);
    assert AllNodes([kids[c]]) == Nodes(kids[c]);
    AllNodesConcat(kids[..c] + ts, kids[c + 1..]);
    AllNodesConcat(kids[..c], ts);
  }

  /** Trees on the nodes of child `c`, and on nodes the siblings have none of, take its place. */
  lemma PutApart<P, E>(kids: seq<Tree<P, E>>, c: nat, ts: seq<Tree<P, E>>, more: set<P>)
    requires c < |kids| && AllApart(kids) && AllApart(ts)
    requires AllNodes(ts) <= Nodes(kids[c]) + more
    requires forall i :: 0 <= i < |kids| ==> Nodes(kids[i]) !! more
    ensures AllApart(Put(kids, c, ts))
  {
    hide Apart, Nodes;
    var r, n := Put(kids, c, ts), |ts|;
    forall i | 0 <= i < n
      ensures Nodes(ts[i]) <= Nodes(kids[c]) + more
    {
      AllNodesHolds(ts, i);
    }
    assert forall i :: 0 <= i < |r| ==> r[i] == if i < c then kids[i] else if i < c + n then ts[i - c] else kids[i - n + 1];
    forall i, j | 0 <= i < j < |r|
      ensures Nodes(r[i]) !! Nodes(r[j])
    {
      if i < c {
        assert Nodes(kids[i]) !! Nodes(kids[c]);
      } else if i < c + n <= j {
        assert Nodes(kids[c]) !! Nodes(kids[j - n + 1]);
      }
    }
  }

  lemma HalveNodes<P, E>(t: Tree<P, E>, right: seq<P>, h: nat)
    requires t.Inner? ==> |t.kids| == |t.sizes| == |t.keys|
    requires Over(t) ==> h < |right|
    ensures AllNodes(Trees(Halve(t, right, h))) == Nodes(t) + if Over(t) then {right[h]} else {}
  {
    var g := Halve(t, right, h);
    if g.Took? {
      assert AllNodes([t]) == Nodes(t);
    } else {
      assert [g.left, g.right][1..] == [g.right];
      assert AllNodes([g.right]) == Nodes(g.right);
      if t.Inner? {
        assert t.kids == t.kids[..HALF] + t.kids[HALF..];
        AllNodesConcat(t.kids[..HALF], t.kids[HALF..]);
      }
    }
  }

  lemma HalveApart<P, E>(t: Tree<P, E>, right: seq<P>, h: nat)
    requires t.Inner? ==> |t.kids| == |t.sizes| == |t.keys|
    requires Apart(t)
    requires Over(t) ==> h < |right| && right[h] !in Nodes(t)
    ensures AllApart(Trees(Halve(t, right, h)))
  {
    if Over(t) && t.Inner? {
      HalveInnerApart(t, right, h);
    }
  }

  lemma HalveInnerApart<P, E>(t: Tree<P, E>, right: seq<P>, h: nat)
    requires t.Inner? && |t.kids| == |t.sizes| == |t.keys| && |t.kids| > FANOUT
    requires Apart(t) && h < |right| && right[h] !in Nodes(t)
    ensures AllApart(Trees(Halve(t, right, h)))
  {
    var a, b := t.kids[..HALF], t.kids[HALF..];
    assert t.kids == a + b;
    AllNodesConcat(a, b);
    NodesDisjoint(a, b);
    var g := Halve(t, right, h);
    assert Apart(g.left);
    assert Apart(g.right);
    assert Nodes(g.left) == {t.at} + AllNodes(a) && Nodes(g.right) == {right[h]} + AllNodes(b);
  }

  /** A node on the nodes of `t` and `below` of the room, and what halving it adds. */
  lemma HalvedNodes<P, E>(t: Tree<P, E>, r: Tree<P, E>, room: seq<P>, h: nat, below: nat, n: nat)
    requires r.Inner? ==> |r.kids| == |r.sizes| == |r.keys|
    requires n == (if Over(r) then below + 1 else below) <= |room| && (Over(r) ==> below == h)
    requires Fresh(t, room, n) && Nodes(r) == Nodes(t) + Taken(room, below) && Apart(r)
    ensures AllNodes(Trees(Halve(r, room, h))) == Nodes(t) + Taken(room, n)
    ensures AllApart(Trees(Halve(r, room, h)))
  {
    hide Halve, Nodes, AllNodes, Apart, AllApart, Trees;
    HalveNodes(r, room, h);
    HalveApart(r, room, h);
    assert Over(r) ==> Taken(room, n) == Taken(room, below) + {room[h]};
  }

  lemma ApartKid<P, E>(t: Tree<P, E>, c: nat)
    requires t.Inner? && Apart(t) && c < |t.kids|
    ensures Apart(t.kids[c]) && Nodes(t.kids[c]) <= Nodes(t)
  {
    AllNodesHolds(t.kids, c);
  }

  /** AN INSERTION USES THE NODES THE TREE HAD AND ONE FOR EACH SPLIT, each of them once. */
  lemma {:induction false} InsertNodes<P, E>(weight: E -> real, t: Tree<P, E>, h: nat, e: E, room: seq<P>)
    requires Shape(t, h) && Splits(weight, t, h, weight(e)) <= |room|
    requires Apart(t) && Fresh(t, room, Splits(weight, t, h, weight(e)))
    ensures AllNodes(Trees(Insert(weight, t, h, e, room))) == Nodes(t) + Taken(room, Splits(weight, t, h, weight(e)))
    ensures AllApart(Trees(Insert(weight, t, h, e, room)))
    decreases h
  {
    hide *;
    var w := weight(e);
    if t.Leaf? {
      LeafNodes(weight, t, h, e, room);
    } else {
      var c, n := Child(weight, t.keys, |t.keys|, w), Splits(weight, t, h, w);
      InsertIs(weight, t, h, e, room, c);
      ApartKid(t, c);
      SplitsKid(weight, t, h, e, room, c);
      var below := Splits(weight, t.kids[c], h - 1, w);
      FreshKid(t, c, room, below, n);
      InsertNodes(weight, t.kids[c], h - 1, e, room);
      var g := Insert(weight, t.kids[c], h - 1, e, room);
      InnerNodes(t, c, g, room, below);
      HalvedNodes(t, Widen(t, c, g), room, h, below, n);
    }
  }

  lemma LeafNodes<P, E>(weight: E -> real, t: Tree<P, E>, h: nat, e: E, room: seq<P>)
    requires t.Leaf? && Shape(t, h) && Splits(weight, t, h, weight(e)) <= |room|
    requires Apart(t) && Fresh(t, room, Splits(weight, t, h, weight(e)))
    ensures AllNodes(Trees(Insert(weight, t, h, e, room))) == Nodes(t) + Taken(room, Splits(weight, t, h, weight(e)))
    ensures AllApart(Trees(Insert(weight, t, h, e, room)))
  {
    hide AllNodes, AllApart, Trees;
    var r := PutEntry(t, Place(weight, t.entries, weight(e)), e);
    HalvedNodes(t, r, room, h, 0, Splits(weight, t, h, weight(e)));
  }

  /** A node splits one more than the child an entry goes to when it is over. */
  lemma SplitsKid<P, E>(weight: E -> real, t: Tree<P, E>, h: nat, e: E, room: seq<P>, c: nat)
    requires t.Inner? && Shape(t, h) && Splits(weight, t, h, weight(e)) <= |room| && c == Child(weight, t.keys, |t.keys|, weight(e))
    ensures c < |t.kids| && Shape(t.kids[c], h - 1) && Splits(weight, t.kids[c], h - 1, weight(e)) <= |room|
    ensures var wide, below := Widen(t, c, Insert(weight, t.kids[c], h - 1, e, room)), Splits(weight, t.kids[c], h - 1, weight(e));
            && Splits(weight, t, h, weight(e)) == (if Over(wide) then below + 1 else below) && (Over(wide) ==> below == h)
            && wide.Inner? && |wide.kids| == |wide.sizes| == |wide.keys|
  {
  }

  lemma FreshKid<P, E>(t: Tree<P, E>, c: nat, room: seq<P>, below: nat, n: nat)
    requires t.Inner? && c < |t.kids| && Nodes(t.kids[c]) <= Nodes(t) && below <= n <= |room| && Fresh(t, room, n)
    ensures Fresh(t.kids[c], room, below) && Fresh(t, room, below)
  {
  }

  lemma InnerNodes<P, E>(t: Tree<P, E>, c: nat, g: Grown<P, E>, room: seq<P>, n: nat)
    requires t.Inner? && |t.kids| == |t.sizes| == |t.keys| && c < |t.kids| && n <= |room|
    requires Apart(t) && AllApart(Trees(g)) && Fresh(t, room, n)
    requires AllNodes(Trees(g)) == Nodes(t.kids[c]) + Taken(room, n)
    ensures Nodes(Widen(t, c, g)) == Nodes(t) + Taken(room, n) && Apart(Widen(t, c, g))
  {
    PutNodes(t.kids, c, Trees(g));
    forall i | 0 <= i < |t.kids|
      ensures Nodes(t.kids[i]) !! Taken(room, n)
    {
      AllNodesHolds(t.kids, i);
    }
    PutApart(t.kids, c, Trees(g), Taken(room, n));
  }

  // ---------- A level above a root that split ----------

  ghost function Rooted<P, E>(g: Grown<P, E>, root: seq<P>, h: nat, zero: E): Tree<P, E>
    requires g.Split? ==> h < |root|
  {
    match g
    case Took(tree) => tree
    case Split(left, key, right) => Inner(root[h], [left, right], [Size(left), Size(right)], [zero, key])
  }

  lemma RootedShape<P, E>(g: Grown<P, E>, root: seq<P>, h: nat, zero: E)
    requires ShapeGrown(g, h) && (g.Split? ==> h + 1 < |root|)
    ensures Shape(Rooted(g, root, h + 1, zero), if g.Took? then h else h + 1)
    ensures Leaves(Rooted(g, root, h + 1, zero)) == AllLeaves(Trees(g))
  {
    if g.Took? {
      assert Shape(Trees(g)[0], h);
      OneLeaves(g.tree);
    } else {
      assert Shape(Trees(g)[0], h) && Shape(Trees(g)[1], h);
      SizeIsCount(g.left, h);
      SizeIsCount(g.right, h);
    }
  }

  lemma RootedOrdered<P, E>(weight: E -> real, g: Grown<P, E>, root: seq<P>, h: nat, zero: E, lo: real, hi: real)
    requires OrderedGrown(weight, g, lo, hi) && (g.Split? ==> h < |root|)
    ensures Ordered(weight, Rooted(g, root, h, zero), lo, hi)
  {
  }

  /** The tree an insertion makes is in order, a level higher when the root split. */
  lemma InsertedOrder<P, E>(weight: E -> real, t: Tree<P, E>, h: nat, e: E, room: seq<P>, zero: E, lo: real, hi: real)
    requires Shape(t, h) && Splits(weight, t, h, weight(e)) <= |room|
    requires Ordered(weight, t, lo, hi) && lo <= weight(e) < hi && !Has(weight, t, h, weight(e))
    requires Insert(weight, t, h, e, room).Split? ==> h + 1 < |room|
    ensures var g := Insert(weight, t, h, e, room);
            var r := Rooted(g, room, h + 1, zero);
            Shape(r, if g.Took? then h else h + 1) && Ordered(weight, r, lo, hi)
  {
    hide *;
    var g := Insert(weight, t, h, e, room);
    InsertShape(weight, t, h, e, room);
    RootedShape(g, room, h, zero);
    InsertOrdered(weight, t, h, e, room, lo, hi);
    RootedOrdered(weight, g, room, h + 1, zero, lo, hi);
  }

  lemma RootedNodes<P, E>(g: Grown<P, E>, root: seq<P>, h: nat, zero: E)
    requires AllApart(Trees(g)) && (g.Split? ==> h < |root| && root[h] !in AllNodes(Trees(g)))
    ensures Nodes(Rooted(g, root, h, zero)) == AllNodes(Trees(g)) + if g.Split? then {root[h]} else {}
    ensures Apart(Rooted(g, root, h, zero))
  {
    if g.Took? {
      assert AllNodes([g.tree]) == Nodes(g.tree);
    }
  }

  // ---------- Distinct leaves ----------

  lemma {:induction false} LeavesAreNodes<P, E>(t: Tree<P, E>, h: nat)
    requires Shape(t, h)
    ensures forall i :: 0 <= i < |Leaves(t)| ==> Leaves(t)[i].at in Nodes(t)
    decreases h, 0
  {
    if t.Inner? {
      AllLeavesAreNodes(t.kids, h - 1);
    }
  }

  lemma {:induction false} AllLeavesAreNodes<P, E>(ts: seq<Tree<P, E>>, h: nat)
    requires forall i :: 0 <= i < |ts| ==> Shape(ts[i], h)
    ensures forall i :: 0 <= i < |AllLeaves(ts)| ==> AllLeaves(ts)[i].at in AllNodes(ts)
    decreases h, 1 + |ts|
  {
    if ts != [] {
      LeavesAreNodes(ts[0], h);
      AllLeavesAreNodes(ts[1..], h);
    }
  }

  ghost predicate DistinctAts<P, E>(ls: seq<Tree<P, E>>)
  {
    forall i, j :: 0 <= i < j < |ls| ==> ls[i].at != ls[j].at
  }

  lemma {:induction false} LeavesDistinct<P, E>(t: Tree<P, E>, h: nat)
    requires Shape(t, h) && Apart(t)
    ensures DistinctAts(Leaves(t))
    decreases h, 0
  {
    if t.Inner? {
      AllLeavesDistinct(t.kids, h - 1);
    }
  }

  lemma {:induction false} AllLeavesDistinct<P, E>(ts: seq<Tree<P, E>>, h: nat)
    requires forall i :: 0 <= i < |ts| ==> Shape(ts[i], h)
    requires AllApart(ts)
    ensures DistinctAts(AllLeaves(ts))
    decreases h, 1 + |ts|
  {
    if ts != [] {
      LeavesDistinct(ts[0], h);
      AllLeavesDistinct(ts[1..], h);
      LeavesAreNodes(ts[0], h);
      AllLeavesAreNodes(ts[1..], h);
      NodesDisjoint([ts[0]], ts[1..]);
      assert AllNodes([ts[0]]) == Nodes(ts[0]);
    }
  }

  // ---------- How many levels a tree can have ----------

  function Power(base: nat, n: nat): nat
  {
    if n == 0 then 1 else base * Power(base, n - 1)
  }

  lemma TimesGrows(a: nat, b: nat, x: nat)
    requires a <= b
    ensures a * x <= b * x
  {
  }

  lemma {:induction false} LeavesOfFilled<P, E>(t: Tree<P, E>, h: nat)
    requires Shape(t, h) && Filled(t, HALF)
    ensures |Leaves(t)| >= Power(HALF, h)
    decreases h, 0
  {
    if t.Inner? {
      AllLeavesOfFilled(t.kids, h - 1);
      TimesGrows(HALF, |t.kids|, Power(HALF, h - 1));
    }
  }

  lemma {:induction false} AllLeavesOfFilled<P, E>(ts: seq<Tree<P, E>>, h: nat)
    requires forall i :: 0 <= i < |ts| ==> Shape(ts[i], h) && Filled(ts[i], HALF)
    ensures |AllLeaves(ts)| >= |ts| * Power(HALF, h)
    decreases h, 1 + |ts|
  {
    if ts != [] {
      LeavesOfFilled(ts[0], h);
      AllLeavesOfFilled(ts[1..], h);
      assert |ts| * Power(HALF, h) == Power(HALF, h) + |ts[1..]| * Power(HALF, h);
    }
  }

  /** THE LEVELS ARE FEW: a tree with levels has at least 2 * 8^(levels - 1) leaves, however many
      entries were removed from them. */
  lemma LevelsBound<P, E>(t: Tree<P, E>, levels: nat)
    requires Shape(t, levels) && Filled(t, 2) && levels > 0
    ensures |Leaves(t)| >= 2 * Power(HALF, levels - 1)
  {
    AllLeavesOfFilled(t.kids, levels - 1);
    TimesGrows(2, |t.kids|, Power(HALF, levels - 1));
  }

  // ---------- A removal ----------

  /** A sequence without its element at `r`. */
  ghost function Without<T>(s: seq<T>, r: nat): seq<T>
    requires r < |s|
  {
    s[..r] + s[r + 1..]
  }

  ghost function DropEntry<P, E>(leaf: Tree<P, E>, p: nat): Tree<P, E>
    requires leaf.Leaf? && p < |leaf.entries|
  {
    leaf.(entries := leaf.entries[..p] + leaf.entries[p + 1..])
  }

  /** `t` without its entry of key `w`: one leaf loses it, and each size on the way counts one less. */
  ghost function Remove<P, E>(weight: E -> real, t: Tree<P, E>, h: nat, w: real): Tree<P, E>
    requires Shape(t, h) && Has(weight, t, h, w)
    decreases h
  {
    match t
    case Leaf(at, es) =>
      DropEntry(t, Place(weight, es, w))
    case Inner(at, kids, sizes, keys) =>
      var c := Child(weight, keys, |keys|, w);
      HasBelow(weight, t, h, w);
      CountsOne(weight, kids[c], h - 1, w);
      Inner(at, kids[c := Remove(weight, kids[c], h - 1, w)], sizes[c := sizes[c] - 1], keys)
  }

  lemma CountsOne<P, E>(weight: E -> real, t: Tree<P, E>, h: nat, w: real)
    requires Shape(t, h) && Has(weight, t, h, w)
    ensures |Entries(t)| > 0
  {
    LeafOfEntries(Leaves(t), LeafIndex(weight, t, h, w));
  }

  /** A removal from an inner node is one from the child the search goes through. */
  lemma RemoveIs<P, E>(weight: E -> real, t: Tree<P, E>, h: nat, w: real, c: nat)
    requires Shape(t, h) && Has(weight, t, h, w) && t.Inner? && c == Child(weight, t.keys, |t.keys|, w)
    ensures h > 0 && c < |t.kids| == |t.sizes| == |t.keys| && t.sizes[c] > 0
    ensures Shape(t.kids[c], h - 1) && Has(weight, t.kids[c], h - 1, w)
    ensures Remove(weight, t, h, w)
            == Inner(t.at, t.kids[c := Remove(weight, t.kids[c], h - 1, w)], t.sizes[c := t.sizes[c] - 1], t.keys)
  {
    hide Has, Child;
    HasBelow(weight, t, h, w);
    CountsOne(weight, t.kids[c], h - 1, w);
  }

  lemma {:induction false} RemoveLeaves<P, E>(weight: E -> real, t: Tree<P, E>, h: nat, w: real)
    requires Shape(t, h) && Has(weight, t, h, w)
    ensures var ls, i := Leaves(t), LeafIndex(weight, t, h, w);
            && ls[i].Leaf?
            && Leaves(Remove(weight, t, h, w)) == ls[i := DropEntry(ls[i], Place(weight, Own(ls[i]), w))]
    decreases h
  {
    if t.Inner? {
      var c := Child(weight, t.keys, |t.keys|, w);
      RemoveIs(weight, t, h, w, c);
      var kid := t.kids[c];
      var j := LeafIndex(weight, kid, h - 1, w);
      LeafIndexSides(weight, t, h, w);
      hide *;
      RemoveLeaves(weight, kid, h - 1, w);
      var less := DropEntry(Leaves(kid)[j], Place(weight, Own(Leaves(kid)[j]), w));
      ReplacedLeaves(t.kids, c, Remove(weight, kid, h - 1, w));
      LeavesAround(t.kids, c);
      InnerLeaves(t);
      InnerLeaves(Remove(weight, t, h, w));
      UpdateBetween(AllLeaves(t.kids[..c]), Leaves(kid), AllLeaves(t.kids[c + 1..]), j, less,
                    Leaves(t), |AllLeaves(t.kids[..c])| + j);
      LeafIndexIs(weight, t, h, w, c);
    }
  }

  lemma InnerLeaves<P, E>(t: Tree<P, E>)
    requires t.Inner?
    ensures Leaves(t) == AllLeaves(t.kids)
  {
  }

  lemma LeafIndexIs<P, E>(weight: E -> real, t: Tree<P, E>, h: nat, w: real, c: nat)
    requires Shape(t, h) && t.Inner? && c == Child(weight, t.keys, |t.keys|, w)
    ensures LeafIndex(weight, t, h, w) == |AllLeaves(t.kids[..c])| + LeafIndex(weight, t.kids[c], h - 1, w)
  {
  }

  lemma ReplacedLeaves<P, E>(kids: seq<Tree<P, E>>, c: nat, kid: Tree<P, E>)
    requires c < |kids|
    ensures AllLeaves(kids[c := kid]) == AllLeaves(kids[..c]) + Leaves(kid) + AllLeaves(kids[c + 1..])
  {
    var r := kids[c := kid];
    LeavesAround(r, c);
    assert r[..c] == kids[..c] && r[c + 1..] == kids[c + 1..];
  }

  lemma UpdateBetween<T>(a: seq<T>, s: seq<T>, b: seq<T>, j: nat, x: T, all: seq<T>, i: nat)
    requires j < |s| && all == a + s + b && i == |a| + j
    ensures all[i] == s[j] && all[i := x] == a + s[j := x] + b
  {
  }

  /** The entries after a removal: those before, without the one at the rank of the key. */
  lemma RemoveEntries<P, E>(weight: E -> real, t: Tree<P, E>, h: nat, w: real)
    requires Shape(t, h) && Has(weight, t, h, w)
    ensures var r := Rank(weight, t, h, w);
            && r < |Entries(t)| && weight(Entries(t)[r]) == w
            && Entries(Remove(weight, t, h, w)) == Without(Entries(t), r)
  {
    hide Leaves, Flat, LeafIndex, Place, ShapeUpTo, Remove;
    RemoveLeaves(weight, t, h, w);
    RankSides(weight, t, h, w);
    var ls, i := Leaves(t), LeafIndex(weight, t, h, w);
    var leaf, p := Own(ls[i]), Place(weight, Own(ls[i]), w);
    ReplacedEntries(ls, i, DropEntry(ls[i], p));
    DropAt(Flat(ls[..i]), leaf, Flat(ls[i + 1..]), p, Entries(t), Rank(weight, t, h, w));
  }

  lemma ReplacedEntries<P, E>(ls: seq<Tree<P, E>>, i: nat, leaf: Tree<P, E>)
    requires i < |ls|
    ensures Flat(ls[i := leaf]) == Flat(ls[..i]) + Own(leaf) + Flat(ls[i + 1..])
  {
    var r := ls[i := leaf];
    LeafOfEntries(r, i);
    assert r[..i] == ls[..i] && r[i + 1..] == ls[i + 1..];
  }

  lemma DropAt<T>(a: seq<T>, s: seq<T>, b: seq<T>, p: nat, all: seq<T>, r: nat)
    requires p < |s| && r <= |all| && all[..r] == a + s[..p] && all[r..] == s[p..] + b
    ensures r < |all| && all[r] == s[p] && all[..r] + all[r + 1..] == a + (s[..p] + s[p + 1..]) + b
  {
    assert all[r] == all[r..][0];
    assert all[r + 1..] == all[r..][1..];
  }

  lemma {:induction false} RemoveShape<P, E>(weight: E -> real, t: Tree<P, E>, h: nat, w: real)
    requires Shape(t, h) && Has(weight, t, h, w)
    ensures Shape(Remove(weight, t, h, w), h)
    decreases h
  {
    if t.Inner? {
      var c := Child(weight, t.keys, |t.keys|, w);
      HasBelow(weight, t, h, w);
      RemoveShape(weight, t.kids[c], h - 1, w);
      RemoveEntries(weight, t.kids[c], h - 1, w);
    }
  }

  /** A REMOVAL KEEPS THE ORDER, the fill and the nodes. */
  lemma {:induction false} RemoveOrdered<P, E>(weight: E -> real, t: Tree<P, E>, h: nat, w: real, lo: real, hi: real)
    requires Shape(t, h) && Has(weight, t, h, w) && Ordered(weight, t, lo, hi)
    ensures Ordered(weight, Remove(weight, t, h, w), lo, hi)
    decreases h
  {
    if t.Inner? {
      var c := Child(weight, t.keys, |t.keys|, w);
      RemoveIs(weight, t, h, w, c);
      hide Child, Has, ShapeUpTo, Remove, Separated, Low, High;
      RemoveOrdered(weight, t.kids[c], h - 1, w, Low(weight, t.keys, c, lo), High(weight, t.keys, c, hi));
    } else {
      DropOrdered(weight, t, h, w, lo, hi);
    }
  }

  lemma DropOrdered<P, E>(weight: E -> real, t: Tree<P, E>, h: nat, w: real, lo: real, hi: real)
    requires Shape(t, h) && Has(weight, t, h, w) && Ordered(weight, t, lo, hi) && t.Leaf?
    ensures Ordered(weight, Remove(weight, t, h, w), lo, hi)
  {
  }

  lemma {:induction false} RemoveFilled<P, E>(weight: E -> real, t: Tree<P, E>, h: nat, w: real, least: nat)
    requires Shape(t, h) && Has(weight, t, h, w) && Filled(t, least)
    ensures Filled(Remove(weight, t, h, w), least)
    decreases h
  {
    if t.Inner? {
      var c := Child(weight, t.keys, |t.keys|, w);
      RemoveIs(weight, t, h, w, c);
      hide Child, Has, ShapeUpTo, Remove;
      RemoveFilled(weight, t.kids[c], h - 1, w, HALF);
    }
  }

  lemma {:induction false} RemoveNodes<P, E>(weight: E -> real, t: Tree<P, E>, h: nat, w: real)
    requires Shape(t, h) && Has(weight, t, h, w)
    ensures Nodes(Remove(weight, t, h, w)) == Nodes(t)
    decreases h
  {
    if t.Inner? {
      var c := Child(weight, t.keys, |t.keys|, w);
      RemoveIs(weight, t, h, w, c);
      hide Child, Has, ShapeUpTo, Remove;
      RemoveNodes(weight, t.kids[c], h - 1, w);
      SameNodes(t.kids, Remove(weight, t, h, w).kids);
    }
  }

  lemma {:induction false} RemoveApart<P, E>(weight: E -> real, t: Tree<P, E>, h: nat, w: real)
    requires Shape(t, h) && Has(weight, t, h, w) && Apart(t)
    ensures Apart(Remove(weight, t, h, w))
    decreases h
  {
    if t.Inner? {
      var c := Child(weight, t.keys, |t.keys|, w);
      RemoveIs(weight, t, h, w, c);
      hide Child, Has, ShapeUpTo, Remove, Nodes, AllNodes;
      RemoveApart(weight, t.kids[c], h - 1, w);
      RemoveNodes(weight, t.kids[c], h - 1, w);
      SameNodes(t.kids, Remove(weight, t, h, w).kids);
    }
  }

  lemma {:induction false} SameNodes<P, E>(a: seq<Tree<P, E>>, b: seq<Tree<P, E>>)
    requires |a| == |b| && forall i :: 0 <= i < |a| ==> Nodes(a[i]) == Nodes(b[i])
    ensures AllNodes(a) == AllNodes(b)
  {
    if a != [] {
      SameNodes(a[1..], b[1..]);
    }
  }
}
