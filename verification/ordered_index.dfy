/** The ordered index in storage: its nodes as objects the operations write in place. */
module OrderedIndex {
  import opened KeyOrder
  import opened KeyTreeModel
  import opened KeyTreeGrowth
  import opened Basics
  import opened SortedEntries

  const KEY_TREE_LEVELS: nat := 24

  /** A node of the tree: a leaf, whose entries and next leaf are read, or an inner node, whose
      children, sizes and keys are. Its count is the length of these. */
  class Node {
    var entries: seq<Item>
    var next: Node?
    var children: seq<Node>
    var sizes: seq<nat>
    var keys: seq<Item>

    constructor ()
      ensures entries == [] && next == null && children == [] && sizes == [] && keys == []
    {
      entries, next, children, sizes, keys := [], null, [], [], [];
    }
  }

  type View = Tree<Node, Item>

  /** A node's own fields are what `t` says of them. */
  ghost predicate Holds(t: View)
    reads t.at
  {
    match t
    case Leaf(at, entries) => at.entries == entries
    case Inner(at, kids, sizes, keys) =>
      && |at.children| == |kids|
      && (forall i :: 0 <= i < |kids| ==> at.children[i] == kids[i].at)
      && at.sizes == sizes
      && at.keys == keys
  }

  lemma AllNodesHold(ts: seq<View>)
    ensures forall i :: 0 <= i < |ts| ==> Nodes(ts[i]) <= AllNodes(ts)
  {
    forall i | 0 <= i < |ts|
      ensures Nodes(ts[i]) <= AllNodes(ts)
    {
      AllNodesHolds(ts, i);
    }
  }

  /** The nodes below `t` hold what `t` says they do. */
  ghost predicate Matches(t: View)
    reads Nodes(t)
    decreases t
  {
    Holds(t) && (t.Inner? ==> forall i :: 0 <= i < |t.kids| ==> Nodes(t.kids[i]) <= Nodes(t) && Matches(t.kids[i]))
  }

  /** The node of the leaf after leaf `i`. */
  ghost function After(ls: seq<View>, i: nat): Node?
  {
    if i + 1 < |ls| then ls[i + 1].at else null
  }

  /** Each leaf leads to the one after it. */
  ghost predicate Chained(ls: seq<View>)
    reads set i | 0 <= i < |ls| :: ls[i].at
  {
    forall i :: 0 <= i < |ls| ==> ls[i].at.next == After(ls, i)
  }

  // ---------- The searches inside a node ----------

  /** The child of `inner` whose subtree holds the key's place: the last whose first key is not after it. */
  method TreeChild(inner: Node, key: Item, ghost lo: real, ghost hi: real) returns (c: nat)
    requires |inner.keys| > 0 && Separated(Weight, inner.keys, lo, hi) && lo >= -1.0 && Keyed(key)
    ensures c == Child(Weight, inner.keys, |inner.keys|, Weight(key)) < |inner.keys|
  {
    hide *;
    var low, top := 1, |inner.keys|;
    while low < top
      invariant 1 <= low <= top <= |inner.keys|
      invariant low > 1 ==> Weight(inner.keys[low - 1]) <= Weight(key)
      invariant top < |inner.keys| ==> Weight(key) < Weight(inner.keys[top])
    {
      var middle := low + (top - low) / 2;
      SeparatedAt(inner.keys, lo, hi, middle);
      if !Before(key, inner.keys[middle]) {
        low := middle + 1;
      } else {
        top := middle;
      }
    }
    c := low - 1;
    ChildIs(Weight, inner.keys, |inner.keys|, Weight(key), c, lo, hi);
  }

  lemma SeparatedAt(keys: seq<Item>, lo: real, hi: real, i: nat)
    requires Separated(Weight, keys, lo, hi) && 1 <= i < |keys|
    ensures lo < Weight(keys[i]) < hi
  {
  }

  lemma WithinAt(es: seq<Item>, lo: real, hi: real, i: nat)
    requires Within(Weight, es, lo, hi) && i < |es|
    ensures lo <= Weight(es[i]) < hi
  {
  }

  /** The first entry of `leaf` whose key is not before the key. */
  method TreePlace(leaf: Node, key: Item, ghost lo: real, ghost hi: real) returns (p: nat)
    requires Sorted(Weight, leaf.entries) && Within(Weight, leaf.entries, lo, hi) && lo >= -1.0 && Keyed(key)
    ensures p == Place(Weight, leaf.entries, Weight(key)) <= |leaf.entries|
  {
    hide *;
    var low, top := 0, |leaf.entries|;
    while low < top
      invariant low <= top <= |leaf.entries|
      invariant low > 0 ==> Weight(leaf.entries[low - 1]) < Weight(key)
      invariant top < |leaf.entries| ==> Weight(leaf.entries[top]) >= Weight(key)
    {
      var middle := low + (top - low) / 2;
      WithinAt(leaf.entries, lo, hi, middle);
      if Before(leaf.entries[middle], key) {
        low := middle + 1;
      } else {
        top := middle;
      }
    }
    p := low;
    PlaceIs(Weight, leaf.entries, Weight(key), p);
  }

  /** The entries below a node `levels` above the leaves. */
  method TreeSize(node: Node, levels: nat, ghost t: View) returns (size: nat)
    requires node == t.at && Holds(t) && Shape(t, levels)
    ensures size == Size(t)
  {
    if levels == 0 {
      return |node.entries|;
    }
    size := 0;
    var i := 0;
    while i < |node.children|
      invariant i <= |node.children|
      invariant size == Sum(t.sizes[..i])
    {
      size := size + node.sizes[i];
      SumSnoc(t.sizes[..i], t.sizes[i]);
      assert t.sizes[..i + 1] == t.sizes[..i] + [t.sizes[i]];
      i := i + 1;
    }
    assert t.sizes[..i] == t.sizes;
  }

  /** The entries below the first `child` children of `inner`. */
  method SizesBefore(inner: Node, child: nat) returns (before: nat)
    requires child <= |inner.sizes|
    ensures before == Sum(inner.sizes[..child])
  {
    before := 0;
    var i := 0;
    while i < child
      invariant i <= child
      invariant before == Sum(inner.sizes[..i])
    {
      before := before + inner.sizes[i];
      SumSnoc(inner.sizes[..i], inner.sizes[i]);
      assert inner.sizes[..i + 1] == inner.sizes[..i] + [inner.sizes[i]];
      i := i + 1;
    }
  }

  /** All that a search in `t` relies on. */
  ghost predicate Searchable(t: View, h: nat, lo: real, hi: real)
    reads Nodes(t)
  {
    Matches(t) && Shape(t, h) && Ordered(Weight, t, lo, hi) && lo >= -1.0
  }

  /** A search for `w` in `whole` stands at `t`, `before` entries on. */
  ghost predicate Stands(whole: View, levels: nat, t: View, h: nat, w: real, lo: real, hi: real, before: nat)
    reads Nodes(t)
  {
    && Searchable(t, h, lo, hi)
    && lo <= w < hi
    && Shape(whole, levels)
    && Reaches(Weight, whole, levels, t, h, w, before)
  }

  /** A step of a search from `node`, which stands at `t`, down to its child. */
  method StepDown(node: Node, level: nat, key: Item, ghost before: nat,
                  ghost whole: View, ghost levels: nat, ghost t: View, ghost lo: real, ghost hi: real)
    returns (child: nat, ghost low: real, ghost high: real)
    requires Keyed(key) && node == t.at && level > 0 && Stands(whole, levels, t, level, Weight(key), lo, hi, before)
    ensures t.Inner? && child < |node.children| == |t.kids| == |t.keys| == |t.sizes|
    ensures child == Child(Weight, t.keys, |t.keys|, Weight(key))
    ensures node.children[child] == t.kids[child].at && node.sizes == t.sizes
    ensures Stands(whole, levels, t.kids[child], level - 1, Weight(key), low, high, before + Sum(t.sizes[..child]))
  {
    assert allocated(Nodes(t));
    child := TreeChild(node, key, lo, hi);
    StepsInto(Weight, t, level, lo, hi, Weight(key), child);
    StepReaches(Weight, t, level, Weight(key), child, whole, levels, before);
    low, high := Low(Weight, t.keys, child, lo), High(Weight, t.keys, child, hi);
  }

  lemma StandsAtRoot(whole: View, levels: nat, w: real)
    requires Searchable(whole, levels, -1.0, 1.0) && 0.0 <= w < 1.0
    ensures Stands(whole, levels, whole, levels, w, -1.0, 1.0, 0)
  {
  }

  /** The leaf a search for the key ends in, and the entries in the leaves before it. */
  method FindLeaf(root: Node, levels: nat, key: Item, ghost whole: View)
    returns (leaf: Node, before: nat, ghost t: View, ghost lo: real, ghost hi: real)
    requires Keyed(key) && root == whole.at && Searchable(whole, levels, -1.0, 1.0)
    ensures leaf == t.at && Stands(whole, levels, t, 0, Weight(key), lo, hi, before)
  {
    hide *;
    KeyWeight(key);
    before, leaf, t, lo, hi := 0, root, whole, -1.0, 1.0;
    StandsAtRoot(whole, levels, Weight(key));
    var level: nat := levels;
    while level > 0
      invariant leaf == t.at && Stands(whole, levels, t, level, Weight(key), lo, hi, before)
    {
      assert allocated(Nodes(t));
      var child;
      child, lo, hi := StepDown(leaf, level, key, before, whole, levels, t, lo, hi);
      assert allocated(Nodes(t.kids[child]));
      var size := SizesBefore(leaf, child);
      before := before + size;
      leaf := leaf.children[child];
      t := t.kids[child];
      level := level - 1;
    }
  }

  lemma KeyWeight(key: Item)
    requires Keyed(key)
    ensures 0.0 <= Weight(key) < 1.0
  {
  }

  /** The child of `node` the entry of rank `rank` is below, and its rank there. */
  method ChildOfRank(node: Node, level: nat, rank: nat, ghost t: View) returns (child: nat, rest: nat)
    requires node == t.at && level > 0 && Holds(t) && Shape(t, level) && rank < |Entries(t)|
    ensures t.Inner? && child < |node.children| == |t.kids|
    ensures rest < |Entries(t.kids[child])| && Entries(t.kids[child])[rest] == Entries(t)[rank]
  {
    hide Entries, Sum;
    child, rest := 0, rank;
    SizesCount(t, level);
    assert Sum(t.sizes[..0]) == 0 by { SumOfNone(t.sizes[..0]); }
    while rest >= node.sizes[child]
      invariant child < |t.sizes|
      invariant rest + Sum(t.sizes[..child]) == rank
      decreases |t.sizes| - child
    {
      SumPrefix(t.sizes, child);
      SumPrefix(t.sizes, child + 1);
      rest := rest - node.sizes[child];
      child := child + 1;
      assert t.sizes[..|t.sizes|] == t.sizes;
    }
    EntryInChild(t, level, child, rank);
  }

  lemma SumOfNone(s: seq<nat>)
    requires s == []
    ensures Sum(s) == 0
  {
  }

  lemma ChildMatches(t: View, h: nat, c: nat)
    requires Matches(t) && Shape(t, h) && h > 0
    ensures t.Inner? && Holds(t) && (c < |t.kids| ==> Matches(t.kids[c]) && Shape(t.kids[c], h - 1))
    ensures c < |t.kids| ==> |t.at.children| == |t.kids| && t.at.children[c] == t.kids[c].at
  {
  }

  lemma LeafMatches(t: View)
    requires Matches(t) && Shape(t, 0)
    ensures t.Leaf? && t.at.entries == t.entries && Entries(t) == t.entries
  {
    OneFlat(t);
  }

  /** The entry of a rank in a tree that has a root. */
  method AtIn(root: Node, levels: nat, rank: nat, ghost whole: View) returns (leaf: Node, place: nat)
    requires root == whole.at && Matches(whole) && Shape(whole, levels) && rank < |Entries(whole)|
    ensures place < |leaf.entries| && leaf.entries[place] == Entries(whole)[rank]
  {
    hide *;
    var level: nat := levels;
    ghost var t := whole;
    leaf, place := root, rank;
    while level > 0
      invariant leaf == t.at && Matches(t) && Shape(t, level)
      invariant place < |Entries(t)| && Entries(t)[place] == Entries(whole)[rank]
    {
      assert allocated(Nodes(t));
      ChildMatches(t, level, 0);
      var child;
      child, place := ChildOfRank(leaf, level, place, t);
      ChildMatches(t, level, child);
      leaf := leaf.children[child];
      t := t.kids[child];
      level := level - 1;
    }
    LeafMatches(t);
  }

  /** A place between entries: what is left to visit runs on from it, leaf after leaf. */
  class Cursor {
    var leaf: Node?
    var index: nat
    /** The leaves from the cursor's on. */
    ghost var leaves: seq<View>

    ghost predicate Valid()
      reads this, set i | 0 <= i < |leaves| :: leaves[i].at
    {
      && Walkable(leaves)
      && leaf == (if leaves == [] then null else leaves[0].at)
      && index <= if leaves == [] then 0 else |leaves[0].entries|
    }

    /** The entries the walk has yet to yield. */
    ghost function Rest(): seq<Item>
      reads this, set i | 0 <= i < |leaves| :: leaves[i].at
      requires Valid()
    {
      if leaves == [] then [] else leaves[0].entries[index..] + Flat(leaves[1..])
    }

    constructor (leaf: Node?, index: nat, ghost leaves: seq<View>)
      requires Walkable(leaves)
      requires leaf == (if leaves == [] then null else leaves[0].at)
      requires index <= if leaves == [] then 0 else |leaves[0].entries|
      ensures Valid() && this.leaf == leaf && this.index == index && this.leaves == leaves
      ensures Rest() == if leaves == [] then [] else leaves[0].entries[index..] + Flat(leaves[1..])
    {
      this.leaf, this.index, this.leaves := leaf, index, leaves;
    }

    /** The cursor, at the end of its leaf, stepped to the next leaf. */
    method SkipLeaf()
      requires Valid() && leaf != null && index == |leaf.entries|
      modifies this
      ensures Valid() && Rest() == old(Rest()) && |leaves| < |old(leaves)|
    {
      hide Walkable, Flat;
      ghost var past := leaves;
      WalkOn(past);
      leaf := leaf.next;
      index := 0;
      leaves := past[1..];
    }

    /** The cursor past the leaves that have nothing more, those a removal emptied among them. */
    method SkipLeaves()
      requires Valid()
      modifies this
      ensures Valid() && Rest() == old(Rest())
      ensures leaf == null || index < |leaves[0].entries|
    {
      hide Walkable, Flat;
      while leaf != null && index == |leaf.entries|
        invariant Valid() && Rest() == old(Rest())
        decreases |leaves|
      {
        SkipLeaf();
      }
      FirstHolds(leaves);
    }

    /** The cursor's entry, the cursor stepped past it; no leaf past the last. */
    method Next() returns (at: Node?, place: nat)
      requires Valid()
      modifies this
      ensures Valid()
      ensures old(Rest()) == [] ==> at == null && Rest() == []
      ensures old(Rest()) != [] ==>
                && at != null && place < |at.entries| && at.entries[place] == old(Rest())[0]
                && Rest() == old(Rest())[1..]
    {
      hide Flat;
      SkipLeaves();
      FirstHolds(leaves);
      if leaf == null {
        return null, 0;
      }
      at, place := leaf, index;
      StepRest(leaves[0].entries, index, Flat(leaves[1..]));
      index := index + 1;
    }
  }

  lemma StepRest<T>(es: seq<T>, i: nat, more: seq<T>)
    requires i < |es|
    ensures es[i..] + more != [] && (es[i..] + more)[0] == es[i] && (es[i..] + more)[1..] == es[i + 1..] + more
  {
  }

  lemma FirstHolds(ls: seq<View>)
    requires Walkable(ls)
    ensures ls != [] ==> ls[0].Leaf? && ls[0].at.entries == ls[0].entries
  {
  }

  ghost predicate Walkable(ls: seq<View>)
    reads set i | 0 <= i < |ls| :: ls[i].at
  {
    Chained(ls) && forall i :: 0 <= i < |ls| ==> ls[i].Leaf? && Holds(ls[i])
  }

  /** A walk past its first leaf goes on at the next leaf's first entry. */
  lemma WalkOn(ls: seq<View>)
    requires ls != [] && Walkable(ls)
    ensures Walkable(ls[1..])
    ensures ls[0].at.next == if |ls| > 1 then ls[1].at else null
    ensures |ls| > 1 ==> Flat(ls[1..]) == ls[1].entries[0..] + Flat(ls[2..])
    ensures |ls| > 1 ==> ls[1..][1..] == ls[2..]
    ensures |ls| == 1 ==> Flat(ls[1..]) == []
    ensures |ls[0].at.entries| == |ls[0].entries| && ls[0].entries[|ls[0].entries|..] == []
  {
    forall i | 0 <= i < |ls[1..]|
      ensures ls[1..][i].at.next == After(ls[1..], i)
      ensures ls[1..][i].Leaf? && Holds(ls[1..][i])
    {
      assert ls[i + 1].at.next == After(ls, i + 1);
    }
    if |ls| > 1 {
      assert ls[1..][1..] == ls[2..];
    }
  }

  lemma {:induction false} WalkFrom(ls: seq<View>, i: nat)
    requires i <= |ls| && Walkable(ls)
    ensures Walkable(ls[i..])
  {
    if i == 0 {
      assert ls[0..] == ls;
    } else {
      WalkFrom(ls, i - 1);
      WalkOn(ls[i - 1..]);
      assert ls[i - 1..][1..] == ls[i..];
    }
  }

  lemma {:induction false} LeavesHold(t: View, h: nat)
    requires Matches(t) && Shape(t, h)
    ensures forall i :: 0 <= i < |Leaves(t)| ==> Leaves(t)[i].Leaf? && Holds(Leaves(t)[i])
    decreases h, 0
  {
    if t.Inner? {
      AllLeavesHold(t.kids, h - 1);
    }
  }

  lemma {:induction false} AllLeavesHold(ts: seq<View>, h: nat)
    requires forall i :: 0 <= i < |ts| ==> Matches(ts[i]) && Shape(ts[i], h)
    ensures forall i :: 0 <= i < |AllLeaves(ts)| ==> AllLeaves(ts)[i].Leaf? && Holds(AllLeaves(ts)[i])
    decreases h, 1 + |ts|
  {
    if ts != [] {
      LeavesHold(ts[0], h);
      AllLeavesHold(ts[1..], h);
    }
  }

  /** Every leaf is one of the tree's nodes. */
  ghost predicate LeavesInNodes(t: View, h: nat)
  {
    forall i :: 0 <= i < |Leaves(t)| ==> Leaves(t)[i].at in Nodes(t)
  }

  /** What a search's last step knows of its leaf. */
  lemma LeafOrdered(whole: View, levels: nat, t: View, w: real, lo: real, hi: real, before: nat)
    requires Stands(whole, levels, t, 0, w, lo, hi, before)
    ensures t.Leaf? && t.at.entries == t.entries && Sorted(Weight, t.entries)
    ensures Within(Weight, t.entries, lo, hi) && lo >= -1.0
    ensures Shape(t, 0) && Shape(whole, levels) && Reaches(Weight, whole, levels, t, 0, w, before)
  {
  }

  lemma SearchableParts(t: View, h: nat, lo: real, hi: real)
    requires Searchable(t, h, lo, hi)
    ensures Matches(t) && Shape(t, h) && Ordered(Weight, t, lo, hi) && lo >= -1.0
  {
  }

  /** Find in a tree that has a root. */
  method FindIn(root: Node, levels: nat, key: Item, ghost t: View) returns (leaf: Node?, place: nat, rank: nat)
    requires Keyed(key) && root == t.at && Searchable(t, levels, -1.0, 1.0)
    ensures IsRank(Weight, Entries(t), rank, Weight(key))
    ensures leaf != null <==> HasAt(Weight, Entries(t), rank, Weight(key))
    ensures leaf != null ==> rank < |Entries(t)| && place < |leaf.entries| && leaf.entries[place] == Entries(t)[rank]
  {
    hide *;
    KeyWeight(key);
    SearchableParts(t, levels, -1.0, 1.0);
    var node, before;
    ghost var end, lo, hi;
    node, before, end, lo, hi := FindLeaf(root, levels, key, t);
    LeafOrdered(t, levels, end, Weight(key), lo, hi, before);
    place := TreePlace(node, key, lo, hi);
    rank := before + place;
    FoundThere(Weight, t, levels, end, Weight(key), -1.0, 1.0, before, place);
    if place < |node.entries| {
      WithinAt(node.entries, lo, hi, place);
    }
    leaf := if place < |node.entries| && Same(node.entries[place], key) then node else null;
  }

  // ---------- The path an update writes on ----------

  /** `views` holds the nodes of a search for `w` from the root down, `at` the child taken at each. */
  ghost predicate Trail(views: seq<View>, at: seq<nat>, w: real)
  {
    && |views| == |at| + 1
    && forall l :: 0 <= l < |at| ==> TrailStep(views, at, w, l)
  }

  ghost predicate TrailStep(views: seq<View>, at: seq<nat>, w: real, l: nat)
    requires |views| == |at| + 1 && l < |at|
  {
    && views[l].Inner?
    && at[l] < |views[l].kids| == |views[l].keys| == |views[l].sizes|
    && at[l] == Child(Weight, views[l].keys, |views[l].keys|, w)
    && views[l + 1] == views[l].kids[at[l]]
  }

  lemma {:induction false} TrailNodes(views: seq<View>, at: seq<nat>, w: real, l: nat, m: nat)
    requires Trail(views, at, w) && l <= m < |views|
    ensures Nodes(views[m]) <= Nodes(views[l])
    decreases m - l
  {
    if l < m {
      assert TrailStep(views, at, w, l);
      AllNodesHolds(views[l].kids, at[l]);
      TrailNodes(views, at, w, l + 1, m);
    }
  }

  lemma {:induction false} TrailApart(views: seq<View>, at: seq<nat>, w: real, l: nat)
    requires Trail(views, at, w) && l < |views| && Apart(views[0])
    ensures Apart(views[l])
  {
    if l > 0 {
      TrailApart(views, at, w, l - 1);
      assert TrailStep(views, at, w, l - 1);
    }
  }

  /** No node of the path is met beside it, nor twice on it. */
  lemma TrailBeside(views: seq<View>, at: seq<nat>, w: real, l: nat, i: nat, m: nat)
    requires Trail(views, at, w) && Apart(views[0]) && m < |views|
    requires l < |at| && views[l].Inner? && i < |views[l].kids| && i != at[l]
    ensures views[m].at !in Nodes(views[l].kids[i])
  {
    assert TrailStep(views, at, w, l);
    TrailApart(views, at, w, l);
    AllNodesHolds(views[l].kids, i);
    if m <= l {
      TrailApart(views, at, w, m);
      if m < l {
        assert TrailStep(views, at, w, m);
        TrailNodes(views, at, w, m + 1, l);
        AllNodesHolds(views[m].kids, at[m]);
      }
    } else {
      TrailNodes(views, at, w, l + 1, m);
      assert Nodes(views[l].kids[i]) !! Nodes(views[l].kids[at[l]]);
    }
  }

  lemma TrailDistinct(views: seq<View>, at: seq<nat>, w: real, l: nat, m: nat)
    requires Trail(views, at, w) && Apart(views[0]) && l < m < |views|
    ensures views[l].at != views[m].at
  {
    assert TrailStep(views, at, w, l);
    TrailApart(views, at, w, l);
    TrailNodes(views, at, w, l + 1, m);
    AllNodesHolds(views[l].kids, at[l]);
  }

  lemma {:induction false} TrailShape(views: seq<View>, at: seq<nat>, w: real, l: nat)
    requires Trail(views, at, w) && l < |views| && Shape(views[0], |at|)
    ensures Shape(views[l], |at| - l)
  {
    hide Child;
    if l > 0 {
      TrailShape(views, at, w, l - 1);
      assert TrailStep(views, at, w, l - 1);
    }
  }

  lemma {:induction false} TrailHas(views: seq<View>, at: seq<nat>, w: real, l: nat)
    requires Trail(views, at, w) && l < |views| && Shape(views[0], |at|)
    ensures Shape(views[l], |at| - l) && (Has(Weight, views[0], |at|, w) <==> Has(Weight, views[l], |at| - l, w))
  {
    hide *;
    TrailLength(views, at, w);
    TrailShape(views, at, w, l);
    if l > 0 {
      TrailHas(views, at, w, l - 1);
      TrailAt(views, at, w, l - 1);
      InnerShape(views[l - 1], |at| - l + 1);
      HasBelow(Weight, views[l - 1], |at| - l + 1, w);
    }
  }

  lemma TrailExtends(views: seq<View>, at: seq<nat>, w: real, c: nat)
    requires Trail(views, at, w)
    requires var t := views[|at|]; t.Inner? && c < |t.kids| == |t.keys| == |t.sizes| && c == Child(Weight, t.keys, |t.keys|, w)
    ensures Trail(views + [views[|at|].kids[c]], at + [c], w)
  {
    hide Child;
    var more, on := views + [views[|at|].kids[c]], at + [c];
    forall l | 0 <= l < |on|
      ensures TrailStep(more, on, w, l)
    {
      assert l < |at| ==> TrailStep(views, at, w, l);
    }
  }

  lemma TrailStarts(whole: View, w: real)
    ensures Trail([whole], [], w)
  {
  }

  /** The nodes on the way to the key from `root`, the child taken at each, and the leaf. */
  method FindPath(root: Node, levels: nat, key: Item, ghost whole: View)
    returns (leaf: Node, path: seq<Node>, at: seq<nat>, ghost views: seq<View>, ghost before: nat,
             ghost lo: real, ghost hi: real)
    requires Keyed(key) && root == whole.at && Searchable(whole, levels, -1.0, 1.0)
    ensures |path| == |at| == levels && |views| == levels + 1 && Trail(views, at, Weight(key)) && views[0] == whole
    ensures leaf == views[levels].at && forall l :: 0 <= l < levels ==> path[l] == views[l].at
    ensures Stands(whole, levels, views[levels], 0, Weight(key), lo, hi, before)
  {
    hide *;
    KeyWeight(key);
    leaf, path, at, views, before, lo, hi := root, [], [], [whole], 0, -1.0, 1.0;
    StandsAtRoot(whole, levels, Weight(key));
    TrailStarts(whole, Weight(key));
    var level := 0;
    while level < levels
      invariant level == |path| == |at| <= levels && |views| == level + 1 && Trail(views, at, Weight(key)) && views[0] == whole
      invariant leaf == views[level].at && forall l :: 0 <= l < level ==> path[l] == views[l].at
      invariant Stands(whole, levels, views[level], levels - level, Weight(key), lo, hi, before)
    {
      assert allocated(Nodes(views[level]));
      ghost var t := views[level];
      var child;
      child, lo, hi := StepDown(leaf, levels - level, key, before, whole, levels, t, lo, hi);
      path := path + [leaf];
      TrailExtends(views, at, Weight(key), child);
      at := at + [child];
      leaf := leaf.children[child];
      views := views + [t.kids[child]];
      before := before + Sum(t.sizes[..child]);
      level := level + 1;
    }
  }

  /** Where the key's entry is, or would go, and the nodes on the way there. */
  method FindEntry(root: Node, levels: nat, key: Item, ghost whole: View)
    returns (leaf: Node, place: nat, found: bool, path: seq<Node>, at: seq<nat>, ghost views: seq<View>, ghost rank: nat)
    requires Keyed(key) && root == whole.at && Searchable(whole, levels, -1.0, 1.0)
    ensures |path| == |at| == levels && |views| == levels + 1 && Trail(views, at, Weight(key)) && views[0] == whole
    ensures leaf == views[levels].at && forall l :: 0 <= l < levels ==> path[l] == views[l].at
    ensures views[levels].Leaf? && leaf.entries == views[levels].entries && Shape(views[levels], 0)
    ensures leaf in Nodes(whole) && forall n :: n in path ==> n in Nodes(whole)
    ensures place == Place(Weight, leaf.entries, Weight(key)) && rank == Rank(Weight, whole, levels, Weight(key))
    ensures place < |leaf.entries| ==> rank < |Entries(whole)| && Entries(whole)[rank] == leaf.entries[place]
    ensures found == Has(Weight, whole, levels, Weight(key))
    ensures found <==> place < |leaf.entries| && Weight(leaf.entries[place]) == Weight(key)
    ensures found <==> HasAt(Weight, Entries(whole), rank, Weight(key))
  {
    hide *;
    SearchableParts(whole, levels, -1.0, 1.0);
    ghost var before, lo, hi;
    leaf, path, at, views, before, lo, hi := FindPath(root, levels, key, whole);
    LeafOrdered(whole, levels, views[levels], Weight(key), lo, hi, before);
    place := TreePlace(leaf, key, lo, hi);
    rank := before + place;
    KeyWeight(key);
    FoundThere(Weight, whole, levels, views[levels], Weight(key), -1.0, 1.0, before, place);
    RankThere(Weight, whole, levels, views[levels], Weight(key), before, place);
    if place < |leaf.entries| {
      WithinAt(leaf.entries, lo, hi, place);
    }
    found := place < |leaf.entries| && Same(leaf.entries[place], key);
    assert rank < |Entries(whole)| ==> Entries(whole)[rank] in Entries(whole);
    TrailInTree(views, at, Weight(key));
  }

  lemma TrailInTree(views: seq<View>, at: seq<nat>, w: real)
    requires Trail(views, at, w)
    ensures forall l :: 0 <= l < |views| ==> views[l].at in Nodes(views[0])
  {
    hide Child;
    forall l | 0 <= l < |views|
      ensures views[l].at in Nodes(views[0])
    {
      TrailNodes(views, at, w, 0, l);
      assert views[l].at in Nodes(views[l]);
    }
  }

  /** The path of a search that ended at `place` of `leaf`. */
  ghost predicate Aimed(views: seq<View>, at: seq<nat>, path: seq<Node>, leaf: Node, place: nat, w: real)
    reads leaf
  {
    && |views| == |at| + 1 && |path| == |at| && Trail(views, at, w) && Shape(views[0], |at|)
    && (forall l :: 0 <= l < |at| ==> path[l] == views[l].at)
    && views[|at|].Leaf? && leaf == views[|at|].at && leaf.entries == views[|at|].entries
    && place == Place(Weight, leaf.entries, w)
    && leaf in Nodes(views[0]) && (forall n :: n in path ==> n in Nodes(views[0]))
  }

  lemma AimedParts(views: seq<View>, at: seq<nat>, path: seq<Node>, leaf: Node, place: nat, w: real)
    requires Aimed(views, at, path, leaf, place, w)
    ensures |views| == |at| + 1 && |path| == |at| && Trail(views, at, w) && Shape(views[0], |at|)
    ensures forall l :: 0 <= l < |at| ==> path[l] == views[l].at
    ensures views[|at|].Leaf? && leaf == views[|at|].at && leaf.entries == views[|at|].entries
    ensures place == Place(Weight, leaf.entries, w)
    ensures leaf in Nodes(views[0]) && (forall n :: n in path ==> n in Nodes(views[0]))
  {
  }

  lemma AimedFrom(views: seq<View>, at: seq<nat>, path: seq<Node>, leaf: Node, place: nat, w: real)
    requires |views| == |at| + 1 && |path| == |at| && Trail(views, at, w) && Shape(views[0], |at|)
    requires forall l :: 0 <= l < |at| ==> path[l] == views[l].at
    requires views[|at|].Leaf? && leaf == views[|at|].at && leaf.entries == views[|at|].entries
    requires place == Place(Weight, leaf.entries, w)
    requires leaf in Nodes(views[0]) && (forall n :: n in path ==> n in Nodes(views[0]))
    ensures Aimed(views, at, path, leaf, place, w)
  {
  }

  /** The same, with what its rank says of the entries. */
  method FindFrom(root: Node, levels: nat, key: Item, ghost whole: View)
    returns (leaf: Node, place: nat, found: bool, path: seq<Node>, at: seq<nat>, ghost views: seq<View>, ghost rank: nat)
    requires Keyed(key) && root == whole.at && Searchable(whole, levels, -1.0, 1.0)
    ensures |at| == levels && |views| == levels + 1 && views[0] == whole
    ensures Aimed(views, at, path, leaf, place, Weight(key))
    ensures rank == Rank(Weight, whole, levels, Weight(key)) && IsRank(Weight, Entries(whole), rank, Weight(key))
    ensures found == Has(Weight, whole, levels, Weight(key)) == HasAt(Weight, Entries(whole), rank, Weight(key))
    ensures found ==> place < |leaf.entries| && rank < |Entries(whole)| && leaf.entries[place] == Entries(whole)[rank]
  {
    hide *;
    SearchableParts(whole, levels, -1.0, 1.0);
    KeyWeight(key);
    RankCuts(Weight, whole, levels, -1.0, 1.0, Weight(key));
    leaf, place, found, path, at, views, rank := FindEntry(root, levels, key, whole);
    AimedFrom(views, at, path, leaf, place, Weight(key));
  }

  // ---------- What an update leaves as it was ----------

  /** The nodes beside the path. */
  ghost function SideNodes(views: seq<View>, at: seq<nat>): set<Node>
    requires |views| == |at| + 1
  {
    set l, i, n | 0 <= l < |at| && views[l].Inner? && 0 <= i < |views[l].kids| && i != at[l]
                  && n in Nodes(views[l].kids[i]) :: n
  }

  /** The nodes beside the path hold what the path's views say they do. */
  ghost predicate Sides(views: seq<View>, at: seq<nat>)
    requires |views| == |at| + 1
    reads SideNodes(views, at)
  {
    forall l, i :: 0 <= l < |at| && views[l].Inner? && 0 <= i < |views[l].kids| && i != at[l] ==>
      Nodes(views[l].kids[i]) <= SideNodes(views, at) && Matches(views[l].kids[i])
  }

  lemma {:induction false} TrailMatches(views: seq<View>, at: seq<nat>, w: real, l: nat)
    requires Trail(views, at, w) && l < |views| && Matches(views[0])
    ensures Matches(views[l])
  {
    hide Child, Nodes;
    if l > 0 {
      TrailMatches(views, at, w, l - 1);
      assert TrailStep(views, at, w, l - 1);
    }
  }

  lemma PathBeside(views: seq<View>, at: seq<nat>, w: real)
    requires Trail(views, at, w) && Apart(views[0])
    ensures forall m :: 0 <= m < |views| ==> views[m].at !in SideNodes(views, at)
  {
    hide Child, Nodes, Apart;
    forall m | 0 <= m < |views|
      ensures views[m].at !in SideNodes(views, at)
    {
      forall l, i | 0 <= l < |at| && views[l].Inner? && 0 <= i < |views[l].kids| && i != at[l]
        ensures views[m].at !in Nodes(views[l].kids[i])
      {
        TrailBeside(views, at, w, l, i, m);
      }
    }
  }

  lemma TrailSides(views: seq<View>, at: seq<nat>, w: real)
    requires Trail(views, at, w) && Matches(views[0]) && Apart(views[0])
    ensures Sides(views, at)
    ensures forall m :: 0 <= m < |views| ==> views[m].at !in SideNodes(views, at)
    ensures SideNodes(views, at) <= Nodes(views[0])
  {
    hide Child, Nodes, Apart;
    forall l, i | 0 <= l < |at| && views[l].Inner? && 0 <= i < |views[l].kids| && i != at[l]
      ensures Nodes(views[l].kids[i]) <= SideNodes(views, at) && Matches(views[l].kids[i])
    {
      TrailMatches(views, at, w, l);
    }
    PathBeside(views, at, w);
    SidesBelow(views, at, w);
  }

  lemma SidesBelow(views: seq<View>, at: seq<nat>, w: real)
    requires Trail(views, at, w)
    ensures SideNodes(views, at) <= Nodes(views[0])
  {
    hide Child;
    forall l, i | 0 <= l < |at| && views[l].Inner? && 0 <= i < |views[l].kids| && i != at[l]
      ensures Nodes(views[l].kids[i]) <= Nodes(views[0])
    {
      TrailNodes(views, at, w, 0, l);
      AllNodesHolds(views[l].kids, i);
    }
  }

  // ---------- A removal ----------

  /** One entry fewer below each child of the path. */
  method CountDown(path: seq<Node>, at: seq<nat>, ghost sizes: seq<seq<nat>>)
    requires |path| == |at| == |sizes|
    requires forall l :: 0 <= l < |at| ==> path[l].sizes == sizes[l] && at[l] < |sizes[l]| && sizes[l][at[l]] > 0
    requires forall l, m :: 0 <= l < m < |path| ==> path[l] != path[m]
    modifies (set n | n in path)`sizes
    ensures forall l :: 0 <= l < |at| ==> path[l].sizes == sizes[l][at[l] := sizes[l][at[l]] - 1]
  {
    for level := 0 to |path|
      invariant forall l :: 0 <= l < level ==> path[l].sizes == sizes[l][at[l] := sizes[l][at[l]] - 1]
      invariant forall l :: level <= l < |path| ==> path[l].sizes == sizes[l]
    {
      path[level].sizes := path[level].sizes[at[level] := path[level].sizes[at[level]] - 1];
    }
  }

  ghost predicate SameKids(t: View)
    requires t.Inner?
    reads t.at
  {
    && |t.at.children| == |t.kids|
    && (forall i :: 0 <= i < |t.kids| ==> t.at.children[i] == t.kids[i].at)
    && t.at.keys == t.keys
  }

  /** A node whose child `c` holds `kid` in place, with its sizes. */
  lemma ParentMatches(t: View, c: nat, kid: View, sizes: seq<nat>)
    requires t.Inner? && c < |t.kids| && SameKids(t) && t.at.sizes == sizes
    requires forall i :: 0 <= i < |t.kids| && i != c ==> Matches(t.kids[i])
    requires Matches(kid) && kid.at == t.kids[c].at
    ensures Matches(Inner(t.at, t.kids[c := kid], sizes, t.keys))
  {
    hide Nodes;
    var r := Inner(t.at, t.kids[c := kid], sizes, t.keys);
    NodesAt(r);
    AllNodesHold(r.kids);
  }

  lemma NodesAt(t: View)
    requires t.Inner?
    ensures Nodes(t) == {t.at} + AllNodes(t.kids)
  {
  }

  ghost predicate CountedDown(views: seq<View>, at: seq<nat>, l: nat)
    requires |views| == |at| + 1 && l < |at|
    reads views[l].at
  {
    var t := views[l];
    && t.Inner? && SameKids(t)
    && at[l] < |t.sizes| && t.sizes[at[l]] > 0
    && t.at.sizes == t.sizes[at[l] := t.sizes[at[l]] - 1]
  }

  /** The node of `t` holds what a removal of `w` makes of it. */
  ghost predicate RemovedAt(t: View, h: nat, w: real)
    reads if Shape(t, h) && Has(Weight, t, h, w) then Nodes(Remove(Weight, t, h, w)) else {}
  {
    Shape(t, h) && Has(Weight, t, h, w) && Remove(Weight, t, h, w).at == t.at && Matches(Remove(Weight, t, h, w))
  }

  lemma RemovedIs(t: View, h: nat, w: real)
    requires RemovedAt(t, h, w)
    ensures Shape(t, h) && Has(Weight, t, h, w) && Remove(Weight, t, h, w).at == t.at && Matches(Remove(Weight, t, h, w))
  {
  }

  lemma RemovedAbove(views: seq<View>, at: seq<nat>, w: real, l: nat, h: nat)
    requires Trail(views, at, w) && l < |at| && h == |at| - l && Sides(views, at) && CountedDown(views, at, l)
    requires Shape(views[l], h) && Has(Weight, views[l], h, w) && RemovedAt(views[l + 1], h - 1, w)
    ensures RemovedAt(views[l], h, w)
  {
    hide Child, Has, Place, DropEntry, Nodes, Apart;
    assert TrailStep(views, at, w, l);
    var t, kid := views[l], Remove(Weight, views[l + 1], h - 1, w);
    ParentMatches(t, at[l], kid, t.sizes[at[l] := t.sizes[at[l]] - 1]);
  }

  lemma {:induction false} RemovedMatches(views: seq<View>, at: seq<nat>, w: real, l: nat)
    requires Trail(views, at, w) && l < |views| && Sides(views, at)
    requires forall m :: 0 <= m < |at| ==> CountedDown(views, at, m)
    requires Shape(views[0], |at|) && Has(Weight, views[0], |at|, w)
    requires RemovedAt(views[|at|], 0, w)
    ensures RemovedAt(views[l], |at| - l, w)
    decreases |views| - l
  {
    hide Has, Sides, RemovedAt;
    if l < |at| {
      RemovedMatches(views, at, w, l + 1);
      TrailHas(views, at, w, l);
      RemovedAbove(views, at, w, l, |at| - l);
    }
  }

  /** Everything a removal relies on, before its first write. */
  lemma BeforeRemoval(views: seq<View>, at: seq<nat>, w: real)
    requires Trail(views, at, w) && Matches(views[0]) && Apart(views[0])
    requires Shape(views[0], |at|) && Has(Weight, views[0], |at|, w)
    ensures Sides(views, at) && (forall m :: 0 <= m < |views| ==> views[m].at !in SideNodes(views, at))
    ensures forall l :: 0 <= l < |at| ==>
              && views[l].Inner? && SameKids(views[l]) && views[l].at.sizes == views[l].sizes
              && at[l] < |views[l].sizes| && views[l].sizes[at[l]] > 0
    ensures forall l, m :: 0 <= l < m < |views| ==> views[l].at != views[m].at
    ensures Shape(views[|at|], 0) && Has(Weight, views[|at|], 0, w)
  {
    hide Has, Child, Apart, Sides, Nodes;
    TrailSides(views, at, w);
    forall l | 0 <= l < |at|
      ensures views[l].Inner? && SameKids(views[l]) && views[l].at.sizes == views[l].sizes
      ensures at[l] < |views[l].sizes| && views[l].sizes[at[l]] > 0
    {
      TrailMatches(views, at, w, l);
      assert TrailStep(views, at, w, l);
      TrailHas(views, at, w, l);
      TrailHas(views, at, w, l + 1);
      CountsOne(Weight, views[l + 1], |at| - l - 1, w);
    }
    forall l, m | 0 <= l < m < |views|
      ensures views[l].at != views[m].at
    {
      TrailDistinct(views, at, w, l, m);
    }
    TrailHas(views, at, w, |at|);
  }

  lemma LeafRemovable(t: View, w: real)
    requires Shape(t, 0) && Has(Weight, t, 0, w)
    ensures t.Leaf? && Place(Weight, t.entries, w) < |t.entries|
  {
  }

  /** The leaf `t` is in once its entry of key `w` is out. */
  lemma LeafRemoved(t: View, w: real)
    requires Shape(t, 0) && Has(Weight, t, 0, w)
    ensures t.Leaf? && Place(Weight, t.entries, w) < |t.entries|
    ensures var p := Place(Weight, t.entries, w);
            t.at.entries == t.entries[..p] + t.entries[p + 1..] ==> RemovedAt(t, 0, w)
  {
  }

  /** The entry at `place` of the leaf out, and each size on the path one less. */
  method TakeOut(leaf: Node, place: nat, path: seq<Node>, at: seq<nat>, ghost views: seq<View>, ghost w: real)
    requires |views| == |at| + 1 && |path| == |at| && Trail(views, at, w)
    requires leaf == views[|at|].at && forall l :: 0 <= l < |at| ==> path[l] == views[l].at
    requires Matches(views[0]) && Apart(views[0]) && Shape(views[0], |at|) && Has(Weight, views[0], |at|, w)
    requires place == Place(Weight, leaf.entries, w) && views[|at|].Leaf? && leaf.entries == views[|at|].entries
    modifies {leaf}`entries, (set n | n in path)`sizes
    ensures RemovedAt(views[0], |at|, w)
  {
    hide Trail, Sides, SideNodes, Has, Matches, Nodes, Apart, RemovedAt, Place, ShapeUpTo;
    BeforeRemoval(views, at, w);
    LeafRemovable(views[|at|], w);
    assert allocated(SideNodes(views, at));
    assert forall n :: n in path ==> n !in SideNodes(views, at);
    ghost var sizes := seq(|at|, l requires 0 <= l < |at| && views[l].Inner? => views[l].sizes);
    leaf.entries := leaf.entries[..place] + leaf.entries[place + 1..];
    CountDown(path, at, sizes);
    LeafRemoved(views[|at|], w);
    RemovedMatches(views, at, w, 0);
  }

  /** What a removal keeps of the value of a tree. */
  lemma RemovedTree(t: View, h: nat, w: real)
    requires Shape(t, h) && Has(Weight, t, h, w) && Ordered(Weight, t, -1.0, 1.0) && Filled(t, 2) && Apart(t)
    ensures var r := Remove(Weight, t, h, w);
            && Shape(r, h) && Ordered(Weight, r, -1.0, 1.0) && Filled(r, 2) && Apart(r) && Nodes(r) == Nodes(t)
            && |Leaves(r)| == |Leaves(t)| && (forall i :: 0 <= i < |Leaves(r)| ==> Leaves(r)[i].at == Leaves(t)[i].at)
  {
    hide *;
    RemoveShape(Weight, t, h, w);
    RemoveOrdered(Weight, t, h, w, -1.0, 1.0);
    RemoveFilled(Weight, t, h, w, 2);
    RemoveApart(Weight, t, h, w);
    RemoveNodes(Weight, t, h, w);
    RemovedLeafAts(t, h, w);
  }

  lemma RemovedEntries(t: View, h: nat, w: real)
    requires Shape(t, h) && Has(Weight, t, h, w)
    ensures var rank := Rank(Weight, t, h, w);
            && rank < |Entries(t)| && Weight(Entries(t)[rank]) == w
            && Entries(Remove(Weight, t, h, w)) == Without(Entries(t), rank)
            && |Entries(Remove(Weight, t, h, w))| == |Entries(t)| - 1
  {
    hide Entries, Rank, Remove, Has, ShapeUpTo;
    RemoveEntries(Weight, t, h, w);
  }

  lemma RemovedLeafAts(t: View, h: nat, w: real)
    requires Shape(t, h) && Has(Weight, t, h, w)
    ensures var r := Remove(Weight, t, h, w);
            |Leaves(r)| == |Leaves(t)| && forall i :: 0 <= i < |Leaves(r)| ==> Leaves(r)[i].at == Leaves(t)[i].at
  {
    hide Leaves, Remove, Place, LeafIndex, Has, ShapeUpTo;
    RemoveLeaves(Weight, t, h, w);
  }

  /** Each of `nodes`, but node `i`, leads where `next` says. */
  ghost predicate Linked(nodes: seq<Node>, next: seq<Node?>, i: int)
    reads (set k | 0 <= k < |nodes| && k != i :: nodes[k])`next
  {
    |nodes| == |next| && forall k :: 0 <= k < |nodes| && k != i ==> nodes[k].next == next[k]
  }

  ghost function Ats(ls: seq<View>): (r: seq<Node>)
  {
    seq(|ls|, i requires 0 <= i < |ls| => ls[i].at)
  }

  ghost function Nexts(ls: seq<View>): (r: seq<Node?>)
  {
    seq(|ls|, i requires 0 <= i => After(ls, i))
  }

  /** Linked leaves are linked but for any one of them. */
  lemma ChainedLinks(ls: seq<View>, i: int)
    requires Chained(ls)
    ensures Linked(Ats(ls), Nexts(ls), i)
    ensures 0 <= i < |ls| ==> ls[i].at.next == Nexts(ls)[i]
  {
  }

  /** Leaves with the same nodes, whose next leaves did not change, stay linked. */
  lemma StillChained(ls: seq<View>, rs: seq<View>)
    requires |rs| == |ls| && (forall i :: 0 <= i < |rs| ==> rs[i].at == ls[i].at) && Linked(Ats(ls), Nexts(ls), -1)
    ensures Chained(rs)
  {
    forall i | 0 <= i < |rs|
      ensures rs[i].at.next == After(rs, i)
    {
      assert Ats(ls)[i].next == Nexts(ls)[i];
    }
  }

  // ---------- An insertion: the nodes it takes ----------

  lemma {:induction false} SplitsUp(views: seq<View>, at: seq<nat>, w: real, l: nat, n: nat)
    requires Trail(views, at, w) && l < |views| && Shape(views[0], |at|) && Shape(views[l], |at| - l)
    requires Splits(Weight, views[l], |at| - l, w) == n <= |at| - l
    ensures Splits(Weight, views[0], |at|, w) == n
    decreases l
  {
    hide *;
    TrailLength(views, at, w);
    if l > 0 {
      TrailShape(views, at, w, l - 1);
      TrailAt(views, at, w, l - 1);
      SplitsPast(views[l - 1], |at| - l + 1, w, n);
      SplitsUp(views, at, w, l - 1, n);
    }
  }

  lemma SplitsPast(t: View, h: nat, w: real, n: nat)
    requires Shape(t, h) && t.Inner? && Splits(Weight, t.kids[Child(Weight, t.keys, |t.keys|, w)], h - 1, w) == n < h
    ensures Splits(Weight, t, h, w) == n
  {
  }

  /** How many nodes an insertion splits: the leaf and the full nodes above it. */
  method CountSplits(leaf: Node, path: seq<Node>, at: seq<nat>, ghost views: seq<View>, ghost w: real)
    returns (splits: nat)
    requires |views| == |at| + 1 && |path| == |at| && Trail(views, at, w) && Shape(views[0], |at|)
    requires leaf == views[|at|].at && forall l :: 0 <= l < |at| ==> path[l] == views[l].at
    requires forall l :: 0 <= l < |views| ==> Holds(views[l])
    ensures splits == Splits(Weight, views[0], |at|, w)
  {
    hide Splits, ShapeUpTo, Child, FullBelow;
    var levels := |at|;
    PathKids(views, at, w);
    TrailShape(views, at, w, levels);
    SplitsOfLeaf(views[levels], w);
    hide Trail, TrailStep, Holds;
    splits := 0;
    if |leaf.entries| == FANOUT {
      splits := 1;
      FullLeaf(views, at, w);
      while splits <= levels && |path[levels - splits].children| == FANOUT
        invariant 1 <= splits <= levels + 1 && FullBelow(views, at, w, splits)
      {
        FullStep(views, at, w, splits);
        splits := splits + 1;
      }
      FullEnd(views, at, w, splits);
    } else {
      SplitsUp(views, at, w, levels, 0);
    }
  }

  lemma PathKids(views: seq<View>, at: seq<nat>, w: real)
    requires Trail(views, at, w) && forall l :: 0 <= l < |views| ==> Holds(views[l])
    ensures views[|at|].Leaf? ==> views[|at|].at.entries == views[|at|].entries
    ensures forall l :: 0 <= l < |at| ==> views[l].Inner? && |views[l].at.children| == |views[l].kids|
  {
    forall l | 0 <= l < |at|
      ensures views[l].Inner? && |views[l].at.children| == |views[l].kids|
    {
      assert TrailStep(views, at, w, l);
    }
  }

  /** The last `n` nodes of the path, the leaf among them, are full. */
  ghost predicate FullBelow(views: seq<View>, at: seq<nat>, w: real, n: nat)
    requires |views| == |at| + 1 && 1 <= n <= |at| + 1
  {
    Shape(views[|at| + 1 - n], n - 1) && Splits(Weight, views[|at| + 1 - n], n - 1, w) == n
  }

  lemma FullLeaf(views: seq<View>, at: seq<nat>, w: real)
    requires |views| == |at| + 1 && Shape(views[|at|], 0) && Splits(Weight, views[|at|], 0, w) == 1
    ensures FullBelow(views, at, w, 1)
  {
  }

  lemma FullStep(views: seq<View>, at: seq<nat>, w: real, n: nat)
    requires Trail(views, at, w) && Shape(views[0], |at|) && 1 <= n <= |at| && FullBelow(views, at, w, n)
    requires views[|at| - n].Inner? && |views[|at| - n].kids| == FANOUT
    ensures FullBelow(views, at, w, n + 1)
  {
    hide *;
    assert |views| == |at| + 1 by { TrailLength(views, at, w); }
    FullParts(views, at, w, n);
    TrailShape(views, at, w, |at| - n);
    TrailAt(views, at, w, |at| - n);
    SplitsFull(views[|at| - n], n, w);
    FullFrom(views, at, w, n + 1);
  }

  lemma FullParts(views: seq<View>, at: seq<nat>, w: real, n: nat)
    requires |views| == |at| + 1 && 1 <= n <= |at| + 1 && FullBelow(views, at, w, n)
    ensures Shape(views[|at| + 1 - n], n - 1) && Splits(Weight, views[|at| + 1 - n], n - 1, w) == n
  {
  }

  lemma FullFrom(views: seq<View>, at: seq<nat>, w: real, n: nat)
    requires |views| == |at| + 1 && 1 <= n <= |at| + 1
    requires Shape(views[|at| + 1 - n], n - 1) && Splits(Weight, views[|at| + 1 - n], n - 1, w) == n
    ensures FullBelow(views, at, w, n)
  {
  }

  lemma SplitsFull(t: View, h: nat, w: real)
    requires Shape(t, h) && t.Inner? && |t.kids| == FANOUT
    requires Splits(Weight, t.kids[Child(Weight, t.keys, |t.keys|, w)], h - 1, w) == h
    ensures Splits(Weight, t, h, w) == h + 1
  {
  }

  lemma FullEnd(views: seq<View>, at: seq<nat>, w: real, n: nat)
    requires Trail(views, at, w) && Shape(views[0], |at|) && 1 <= n <= |at| + 1 && FullBelow(views, at, w, n)
    requires n <= |at| ==> views[|at| - n].Inner? && |views[|at| - n].kids| != FANOUT
    ensures Splits(Weight, views[0], |at|, w) == n
  {
    hide Child;
    if n <= |at| {
      TrailShape(views, at, w, |at| - n);
      assert TrailStep(views, at, w, |at| - n);
      SplitsUp(views, at, w, |at| - n, n);
    }
  }

  lemma SplitsOfLeaf(t: View, w: real)
    requires Shape(t, 0)
    ensures t.Leaf? && |t.entries| <= FANOUT && Splits(Weight, t, 0, w) == if |t.entries| == FANOUT then 1 else 0
  {
  }

  // ---------- An insertion: the storage it takes ----------

  /** The most leaves an address space of 2^64 bytes holds: a leaf has more than 2^9 bytes. */
  const LEAF_LIMIT: nat := 0x80_0000_0000_0000

  /** A zeroed node, or none when storage cannot be had. */
  method Allocate(granted: bool) returns (node: Node?)
    ensures node != null ==> fresh(node) && Zeroed(node)
    ensures granted ==> node != null
  {
    var ok := HasStorage(granted);
    node := null;
    if ok {
      node := new Node();
    }
  }

  ghost predicate Zeroed(node: Node)
    reads node
  {
    node.entries == [] && node.next == null && node.children == [] && node.sizes == [] && node.keys == []
  }

  ghost predicate AllZeroed(room: seq<Node>)
    reads set n | n in room
  {
    && (forall i :: 0 <= i < |room| ==> Zeroed(room[i]))
    && (forall i, j :: 0 <= i < j < |room| ==> room[i] != room[j])
  }

  /** `n` zeroed nodes, or none of them. */
  method TakeRoom(n: nat, granted: bool) returns (room: seq<Node>, ok: bool)
    ensures granted || n == 0 ==> ok
    ensures ok ==> |room| == n && AllZeroed(room) && fresh(set r | r in room)
  {
    room := [];
    while |room| < n
      invariant |room| <= n && AllZeroed(room) && fresh(set r | r in room)
    {
      var node := Allocate(granted);
      if node == null {
        return [], false;
      }
      room := room + [node];
    }
    ok := true;
  }

  // ---------- An insertion: the writes ----------

  /** What a split below made: the node, the first key below it and its entries; or no node. */
  ghost predicate Made(g: Grown<Node, Item>, node: Node?, key: Item, size: nat)
  {
    if g.Took? then node == null else node == g.right.at && key == g.key && size == Size(g.right)
  }

  /** The nodes at the top of what an insertion made hold what they should. */
  ghost predicate HoldsGrown(g: Grown<Node, Item>)
    reads if g.Took? then {g.tree.at} else {g.left.at, g.right.at}
  {
    if g.Took? then Holds(g.tree) else Holds(g.left) && Holds(g.right)
  }

  /** The entry put at its place in `leaf`, the second half of a full leaf moved to `right` first. */
  method PutInLeaf(leaf: Node, place: nat, e: Item, right: Node?, ghost t: View, ghost room: seq<Node>)
    returns (made: Node?, key: Item, size: nat, into: Node, at: nat)
    requires t.Leaf? && leaf == t.at && Holds(t) && place <= |t.entries| <= FANOUT
    requires |t.entries| == FANOUT ==> |room| > 0 && right == room[0] && right != leaf && Zeroed(right)
    requires |t.entries| < FANOUT ==> right == null
    modifies {leaf}`entries, {leaf}`next, (if right == null then {} else {right})`entries,
             (if right == null then {} else {right})`next
    ensures HoldsGrown(Halve(PutEntry(t, place, e), room, 0)) && Made(Halve(PutEntry(t, place, e), room, 0), made, key, size)
    ensures right == null ==> into == leaf && leaf.next == old(leaf.next)
    ensures right != null ==> (into == leaf || into == right) && leaf.next == right && right.next == old(leaf.next)
    ensures at < |into.entries| && into.entries[at] == e
  {
    hide With;
    made, key, size := null, e, 0;
    into, at := leaf, place;
    ghost var es := With(t.entries, place, e);
    PutEntryIs(t, place, e);
    WithAt(t.entries, place, e);
    if right == null {
      leaf.entries := With(leaf.entries, place, e);
    } else {
      PutInHalf(leaf.entries, place, e);
      var from := if place < HALF then HALF - 1 else HALF;
      right.entries := leaf.entries[from..];
      leaf.entries := leaf.entries[..from];
      into, at := if place < HALF then leaf else right, if place < HALF then place else place - HALF;
      WithAt(into.entries, at, e);
      into.entries := With(into.entries, at, e);
      right.next := leaf.next;
      leaf.next := right;
      assert leaf.entries == es[..HALF] && right.entries == es[HALF..];
      made, key, size := right, right.entries[0], |right.entries|;
    }
  }

  lemma PutEntryIs(t: View, place: nat, e: Item)
    requires t.Leaf? && place <= |t.entries|
    ensures PutEntry(t, place, e) == Leaf(t.at, With(t.entries, place, e))
  {
  }

  /** A full run with `x` put in at `slot`, half by half. */
  lemma PutInHalf<T>(s: seq<T>, slot: nat, x: T)
    requires |s| == FANOUT && slot <= FANOUT
    ensures slot < HALF ==> With(s[..HALF - 1], slot, x) == With(s, slot, x)[..HALF]
    ensures slot < HALF ==> s[HALF - 1..] == With(s, slot, x)[HALF..]
    ensures slot >= HALF ==> s[..HALF] == With(s, slot, x)[..HALF]
    ensures slot >= HALF ==> With(s[HALF..], slot - HALF, x) == With(s, slot, x)[HALF..]
  {
  }

  /** The fields of an inner node that took `made` in after child `child`. */
  lemma WidenFields(t: View, child: nat, g: Grown<Node, Item>, children: seq<Node>)
    requires t.Inner? && |t.kids| == |t.sizes| == |t.keys| == |children| && child < |t.kids| && g.Split?
    requires (forall i :: 0 <= i < |t.kids| ==> children[i] == t.kids[i].at) && g.left.at == t.kids[child].at
    ensures var wide := Widen(t, child, g); var more := With(children, child + 1, g.right.at);
            && wide.at == t.at && |more| == |wide.kids| == |t.kids| + 1 && (forall i :: 0 <= i < |more| ==> more[i] == wide.kids[i].at)
            && wide.sizes == With(t.sizes[child := Size(g.left)], child + 1, Size(g.right))
            && wide.keys == With(t.keys, child + 1, g.key)
  {
  }

  /** A full inner node keeps the first half of what it holds and `made`, and `right` takes the rest. */
  method SplitInner(inner: Node, right: Node, slot: nat, made: Node, key: Item, size: nat)
    requires inner != right && slot <= |inner.children| == |inner.sizes| == |inner.keys| == FANOUT
    modifies {inner, right}`children, {inner, right}`sizes, {inner, right}`keys
    ensures inner.children == With(old(inner.children), slot, made)[..HALF]
    ensures right.children == With(old(inner.children), slot, made)[HALF..]
    ensures inner.sizes == With(old(inner.sizes), slot, size)[..HALF]
    ensures right.sizes == With(old(inner.sizes), slot, size)[HALF..]
    ensures inner.keys == With(old(inner.keys), slot, key)[..HALF]
    ensures right.keys == With(old(inner.keys), slot, key)[HALF..]
    ensures |inner.children| == HALF && |right.children| == |right.keys| == HALF + 1
  {
    PutInHalf(inner.children, slot, made);
    PutInHalf(inner.sizes, slot, size);
    PutInHalf(inner.keys, slot, key);
    var from := if slot < HALF then HALF - 1 else HALF;
    right.children, right.sizes, right.keys := inner.children[from..], inner.sizes[from..], inner.keys[from..];
    inner.children, inner.sizes, inner.keys := inner.children[..from], inner.sizes[..from], inner.keys[..from];
    var into := if slot < HALF then inner else right;
    var at := if slot < HALF then slot else slot - HALF;
    hide With;
    into.children := With(into.children, at, made);
    into.sizes := With(into.sizes, at, size);
    into.keys := With(into.keys, at, key);
  }

  /** A node made beside child `child` taken in after it, the second half of a full node moved to
      `right` first. */
  method TakeChild(inner: Node, child: nat, below: nat, made: Node, key: Item, size: nat, right: Node?,
                   ghost t: View, ghost g: Grown<Node, Item>, ghost room: seq<Node>)
    returns (madeUp: Node?, keyUp: Item, sizeUp: nat)
    requires t.Inner? && inner == t.at && Holds(t) && |t.kids| == |t.sizes| == |t.keys| && child < |t.kids| <= FANOUT
    requires g.Split? && Made(g, made, key, size) && g.left.at == t.kids[child].at
    requires Holds(g.left) && Shape(g.left, below) && g.left.at != inner
    requires |t.kids| == FANOUT ==> below + 1 < |room| && right == room[below + 1] && right != inner && Zeroed(right)
    requires right != null ==> right != g.left.at && |t.kids| == FANOUT
    modifies inner`children, inner`sizes, inner`keys, (if right == null then {} else {right})`children,
             (if right == null then {} else {right})`sizes, (if right == null then {} else {right})`keys
    ensures HoldsGrown(Halve(Widen(t, child, g), room, below + 1))
    ensures Made(Halve(Widen(t, child, g), room, below + 1), madeUp, keyUp, sizeUp)
  {
    hide *;
    ghost var wide := Widen(t, child, g);
    KidsHeld(t);
    SplitMade(g, made, key, size);
    WidenFields(t, child, g, inner.children);
    var leftSize := TreeSize(inner.children[child], below, g.left);
    inner.sizes := inner.sizes[child := leftSize];
    var slot := child + 1;
    if |inner.children| < FANOUT {
      inner.children := With(inner.children, slot, made);
      inner.sizes := With(inner.sizes, slot, size);
      inner.keys := With(inner.keys, slot, key);
      FitsHold(wide, inner, room, below + 1, key);
      return null, key, 0;
    }
    ghost var more := With(inner.children, slot, made);
    SplitInner(inner, right, slot, made, key, size);
    madeUp, keyUp := right, right.keys[0];
    sizeUp := SumSizes(right);
    HalvesHold(wide, inner, right, room, below + 1, more);
  }

  /** A child that took one entry in without splitting is counted one larger. */
  method CountChild(inner: Node, child: nat, below: nat, ghost key: Item,
                    ghost t: View, ghost g: Grown<Node, Item>, ghost room: seq<Node>)
    requires t.Inner? && inner == t.at && Holds(t) && |t.kids| == |t.sizes| == |t.keys| && child < |t.kids| <= FANOUT
    requires g.Took? && g.tree.at == t.kids[child].at
    modifies inner`sizes
    ensures HoldsGrown(Halve(Widen(t, child, g), room, below + 1))
    ensures Made(Halve(Widen(t, child, g), room, below + 1), null, key, 0)
  {
    KidsHeld(t);
    inner.sizes := inner.sizes[child := inner.sizes[child] + 1];
    FitsHold(Widen(t, child, g), inner, room, below + 1, key);
  }

  lemma KidsHeld(t: View)
    requires t.Inner? && Holds(t)
    ensures |t.at.children| == |t.kids| && (forall i :: 0 <= i < |t.kids| ==> t.at.children[i] == t.kids[i].at)
    ensures t.at.sizes == t.sizes && t.at.keys == t.keys
  {
  }

  lemma FitsHold(wide: View, inner: Node, room: seq<Node>, h: nat, key: Item)
    requires wide.Inner? && wide.at == inner && |wide.kids| == |wide.sizes| == |wide.keys| <= FANOUT
    requires inner.sizes == wide.sizes && inner.keys == wide.keys
    requires |inner.children| == |wide.kids| && forall i :: 0 <= i < |wide.kids| ==> inner.children[i] == wide.kids[i].at
    ensures HoldsGrown(Halve(wide, room, h)) && Made(Halve(wide, room, h), null, key, 0)
  {
  }

  lemma HalvesHold(wide: View, inner: Node, right: Node, room: seq<Node>, h: nat, more: seq<Node>)
    requires wide.Inner? && wide.at == inner && |wide.kids| == |wide.sizes| == |wide.keys| == FANOUT + 1
    requires h < |room| && right == room[h]
    requires inner.sizes == wide.sizes[..HALF] && right.sizes == wide.sizes[HALF..]
    requires inner.keys == wide.keys[..HALF] && right.keys == wide.keys[HALF..]
    requires |more| == FANOUT + 1 && forall i :: 0 <= i < |more| ==> more[i] == wide.kids[i].at
    requires inner.children == more[..HALF] && right.children == more[HALF..]
    ensures HoldsGrown(Halve(wide, room, h)) && Made(Halve(wide, room, h), right, right.keys[0], Sum(right.sizes))
  {
  }

  method SumSizes(node: Node) returns (sum: nat)
    ensures sum == Sum(node.sizes)
  {
    sum := SizesBefore(node, |node.sizes|);
    assert node.sizes[..|node.sizes|] == node.sizes;
  }

  // ---------- An insertion: up the path ----------

  ghost predicate AllMatch(ts: seq<View>)
    reads AllNodes(ts)
  {
    forall i :: 0 <= i < |ts| ==> Nodes(ts[i]) <= AllNodes(ts) && Matches(ts[i])
  }

  lemma PutMatch(kids: seq<View>, c: nat, ts: seq<View>)
    requires c < |kids| && AllMatch(ts) && forall i :: 0 <= i < |kids| && i != c ==> Matches(kids[i])
    ensures forall i :: 0 <= i < |Put(kids, c, ts)| ==> Matches(Put(kids, c, ts)[i])
  {
    var r, n := Put(kids, c, ts), |ts|;
    forall i | 0 <= i < |r|
      ensures Matches(r[i])
    {
      assert r[i] == if i < c then kids[i] else if i < c + n then ts[i - c] else kids[i - n + 1];
    }
  }

  /** Halves whose own fields hold, over children that all match, match. */
  lemma HalvesMatch(wide: View, room: seq<Node>, h: nat)
    requires wide.Inner? && |wide.kids| == |wide.sizes| == |wide.keys| && (Over(wide) ==> h < |room|)
    requires forall i :: 0 <= i < |wide.kids| ==> Matches(wide.kids[i])
    requires HoldsGrown(Halve(wide, room, h))
    ensures AllMatch(Trees(Halve(wide, room, h)))
  {
    hide Nodes, AllNodes;
    var ts := Trees(Halve(wide, room, h));
    AllNodesHold(ts);
    forall i | 0 <= i < |ts|
      ensures Matches(ts[i])
    {
      AllNodesHold(ts[i].kids);
      NodesAt(ts[i]);
    }
  }

  /** `g` is what an insertion of `e` makes of `t`. */
  ghost predicate Grew(t: View, h: nat, e: Item, room: seq<Node>, g: Grown<Node, Item>)
  {
    Shape(t, h) && Splits(Weight, t, h, Weight(e)) <= |room| && g == Insert(Weight, t, h, e, room)
  }

  lemma GrewUp(t: View, h: nat, e: Item, room: seq<Node>, c: nat, g: Grown<Node, Item>)
    requires t.Inner? && Shape(t, h) && Splits(Weight, t, h, Weight(e)) <= |room|
    requires c == Child(Weight, t.keys, |t.keys|, Weight(e)) && Grew(t.kids[c], h - 1, e, room, g)
    ensures Over(Widen(t, c, g)) ==> h < |room|
    ensures Grew(t, h, e, room, Halve(Widen(t, c, g), room, h))
  {
  }

  /** The room an insertion may use: nodes of their own, none of the tree's. */
  ghost predicate Roomy(t: View, room: seq<Node>)
  {
    && (forall i, j :: 0 <= i < j < |room| ==> room[i] != room[j])
    && (forall i :: 0 <= i < |room| ==> room[i] !in Nodes(t))
  }

  /** What the step at node `l` of the path writes is nothing an insertion below it made. */
  lemma StepApart(views: seq<View>, at: seq<nat>, e: Item, room: seq<Node>, l: nat, h: nat,
                  g: Grown<Node, Item>)
    requires Trail(views, at, Weight(e)) && Apart(views[0]) && Roomy(views[0], room) && l < |at| && h == |at| - l
    requires Grew(views[l + 1], h - 1, e, room, g)
    ensures views[l].at !in AllNodes(Trees(g)) && (h < |room| ==> room[h] !in AllNodes(Trees(g)))
  {
    hide Child, Splits, Insert;
    var kid := views[l + 1];
    TrailApart(views, at, Weight(e), l + 1);
    TrailNodes(views, at, Weight(e), 0, l + 1);
    TrailNodes(views, at, Weight(e), 0, l);
    KidApart(views, at, Weight(e), l);
    InsertNodes(Weight, kid, h - 1, e, room);
  }

  lemma KidApart(views: seq<View>, at: seq<nat>, w: real, l: nat)
    requires Trail(views, at, w) && Apart(views[0]) && l < |at|
    ensures views[l].at !in Nodes(views[l + 1]) && views[l].at in Nodes(views[l])
  {
    hide Child;
    TrailApart(views, at, w, l);
    assert TrailStep(views, at, w, l);
    AllNodesHolds(views[l].kids, at[l]);
  }

  lemma GrownLeft(g: Grown<Node, Item>, below: nat)
    requires AllMatch(Trees(g)) && ShapeGrown(g, below)
    ensures g.Split? ==> Holds(g.left) && Shape(g.left, below) && g.left.at in AllNodes(Trees(g))
  {
    if g.Split? {
      AllNodesHolds(Trees(g), 0);
      assert Trees(g)[0] == g.left;
    }
  }

  /** What taking in what child `child` became relies on. */
  ghost predicate Ready(t: View, child: nat, below: nat, made: Node?, key: Item, size: nat, right: Node?,
                        g: Grown<Node, Item>, room: seq<Node>)
    reads t.at, AllNodes(Trees(g)), if t.Inner? then AllNodes(t.kids) else {}, if right == null then {} else {right}
  {
    && t.Inner? && Holds(t) && |t.kids| == |t.sizes| == |t.keys| && child < |t.kids| <= FANOUT
    && (forall i :: 0 <= i < |t.kids| && i != child ==>
          Nodes(t.kids[i]) <= AllNodes(t.kids) && Matches(t.kids[i]) && t.at !in Nodes(t.kids[i]))
    && AllMatch(Trees(g)) && Trees(g)[0].at == t.kids[child].at && t.at !in AllNodes(Trees(g))
    && ShapeGrown(g, below) && Made(g, made, key, size)
    && if made != null && |t.kids| == FANOUT
       then && below + 1 < |room| && right == room[below + 1] && right != t.at && Zeroed(right)
            && right !in AllNodes(Trees(g))
            && forall i :: 0 <= i < |t.kids| && i != child ==> right !in Nodes(t.kids[i])
       else right == null
  }

  /** One step up: `inner`, at `t`, takes what its child became. */
  method GrowUp(inner: Node, child: nat, below: nat, made: Node?, key: Item, size: nat, right: Node?,
                ghost t: View, ghost g: Grown<Node, Item>, ghost room: seq<Node>)
    returns (madeUp: Node?, keyUp: Item, sizeUp: nat)
    requires inner == t.at && Ready(t, child, below, made, key, size, right, g, room)
    modifies inner`children, inner`sizes, inner`keys, (if right == null then {} else {right})`children,
             (if right == null then {} else {right})`sizes, (if right == null then {} else {right})`keys
    ensures AllMatch(Trees(Halve(Widen(t, child, g), room, below + 1)))
    ensures Trees(Halve(Widen(t, child, g), room, below + 1))[0].at == t.at
    ensures Made(Halve(Widen(t, child, g), room, below + 1), madeUp, keyUp, sizeUp)
  {
    hide ShapeUpTo, AllNodes, Nodes, Matches;
    ghost var wide := Widen(t, child, g);
    AllNodesHold(t.kids);
    GrownLeft(g, below);
    assert allocated(AllNodes(Trees(g))) && allocated(AllNodes(t.kids));
    if made == null {
      CountChild(inner, child, below, key, t, g, room);
      madeUp, keyUp, sizeUp := null, key, 0;
    } else {
      madeUp, keyUp, sizeUp := TakeChild(inner, child, below, made, key, size, right, t, g, room);
    }
    PutMatch(t.kids, child, Trees(g));
    HalvesMatch(wide, room, below + 1);
  }

  lemma {:induction false} SplitsGrow(views: seq<View>, at: seq<nat>, w: real, l: nat)
    requires Trail(views, at, w) && l < |views| && Shape(views[0], |at|)
    ensures Shape(views[l], |at| - l) && Splits(Weight, views[l], |at| - l, w) <= Splits(Weight, views[0], |at|, w)
  {
    hide Child;
    TrailShape(views, at, w, l);
    if l > 0 {
      SplitsGrow(views, at, w, l - 1);
      assert TrailStep(views, at, w, l - 1);
    }
  }

  /** What the step at node `l` of the path relies on, whatever the steps below it wrote. */
  lemma StepFacts(views: seq<View>, at: seq<nat>, e: Item, room: seq<Node>, l: nat, g: Grown<Node, Item>)
    requires Trail(views, at, Weight(e)) && Apart(views[0]) && Shape(views[0], |at|) && l < |at|
    requires Roomy(views[0], room) && Splits(Weight, views[0], |at|, Weight(e)) <= |room|
    requires Grew(views[l + 1], |at| - l - 1, e, room, g) && Trees(g)[0].at == views[l + 1].at
    ensures var t := views[l];
            && t.Inner? && |t.kids| == |t.sizes| == |t.keys| && at[l] < |t.kids| <= FANOUT
            && Trees(g)[0].at == t.kids[at[l]].at && t.at !in AllNodes(Trees(g)) && ShapeGrown(g, |at| - l - 1)
            && (g.Split? && |t.kids| == FANOUT ==>
                  |at| - l < |room| && room[|at| - l] !in AllNodes(Trees(g)) && room[|at| - l] != t.at)
            && (Over(Widen(t, at[l], g)) ==> |at| - l < |room|)
            && Grew(t, |at| - l, e, room, Halve(Widen(t, at[l], g), room, |at| - l))
  {
    hide *;
    TrailAt(views, at, Weight(e), l);
    SplitsGrow(views, at, Weight(e), l);
    InnerShape(views[l], |at| - l);
    StepApart(views, at, e, room, l, |at| - l, g);
    GrewUp(views[l], |at| - l, e, room, at[l], g);
    GrewShape(views[l + 1], |at| - l - 1, e, room, g);
    WidensOver(views[l], at[l], g);
    RoomBeside(views, at, Weight(e), room, l);
  }

  lemma TrailAt(views: seq<View>, at: seq<nat>, w: real, l: nat)
    requires Trail(views, at, w) && l < |at|
    ensures |views| == |at| + 1 && views[l].Inner? && at[l] < |views[l].kids| == |views[l].keys| == |views[l].sizes|
    ensures at[l] == Child(Weight, views[l].keys, |views[l].keys|, w) && views[l + 1] == views[l].kids[at[l]]
  {
    assert TrailStep(views, at, w, l);
  }

  lemma TrailLength(views: seq<View>, at: seq<nat>, w: real)
    requires Trail(views, at, w)
    ensures |views| == |at| + 1
  {
  }

  lemma InnerShape(t: View, h: nat)
    requires Shape(t, h) && t.Inner?
    ensures h > 0 && |t.kids| == |t.sizes| == |t.keys| <= FANOUT
  {
  }

  lemma GrewShape(t: View, h: nat, e: Item, room: seq<Node>, g: Grown<Node, Item>)
    requires Grew(t, h, e, room, g)
    ensures ShapeGrown(g, h)
  {
    hide *;
    GrewParts(t, h, e, room, g);
    InsertShape(Weight, t, h, e, room);
  }

  lemma GrewParts(t: View, h: nat, e: Item, room: seq<Node>, g: Grown<Node, Item>)
    requires Grew(t, h, e, room, g)
    ensures Shape(t, h) && Splits(Weight, t, h, Weight(e)) <= |room| && g == Insert(Weight, t, h, e, room)
  {
  }

  lemma RoomBeside(views: seq<View>, at: seq<nat>, w: real, room: seq<Node>, l: nat)
    requires Trail(views, at, w) && Roomy(views[0], room) && l < |views|
    ensures forall i :: 0 <= i < |room| ==> room[i] != views[l].at
  {
    hide Child, Nodes;
    TrailInTree(views, at, w);
  }

  lemma WidensOver(t: View, c: nat, g: Grown<Node, Item>)
    requires t.Inner? && |t.kids| == |t.sizes| == |t.keys| && c < |t.kids|
    ensures Over(Widen(t, c, g)) <==> |t.kids| > FANOUT || (g.Split? && |t.kids| == FANOUT)
  {
  }

  lemma SideKids(views: seq<View>, at: seq<nat>, w: real, l: nat)
    requires Trail(views, at, w) && l < |at| && Sides(views, at) && Apart(views[0])
    ensures views[l].Inner? && forall i :: 0 <= i < |views[l].kids| && i != at[l] ==>
              && Matches(views[l].kids[i]) && views[l].at !in Nodes(views[l].kids[i])
  {
    hide Child, Nodes, Matches;
    assert TrailStep(views, at, w, l);
    SidesBelow(views, at, w);
    forall i | 0 <= i < |views[l].kids| && i != at[l]
      ensures views[l].at !in Nodes(views[l].kids[i])
    {
      TrailBeside(views, at, w, l, i, l);
    }
  }

  /** Nothing above level `l` of the path was written, nor beside it, nor the room from `h` on. */
  ghost predicate Untouched(views: seq<View>, at: seq<nat>, room: seq<Node>, l: nat, h: nat)
    requires |views| == |at| + 1 && l <= |at|
    reads SideNodes(views, at), (set m | 0 <= m < l :: views[m].at), (set i | h <= i < |room| :: room[i])
  {
    && Sides(views, at)
    && (forall m :: 0 <= m < l ==> Holds(views[m]))
    && (forall i :: h <= i < |room| ==> Zeroed(room[i]))
  }

  lemma UntouchedBelow(views: seq<View>, at: seq<nat>, room: seq<Node>, l: nat, h: nat)
    requires |views| == |at| + 1 && 0 < l <= |at| && Untouched(views, at, room, l, h)
    ensures Untouched(views, at, room, l - 1, h + 1) && Holds(views[l - 1]) && Sides(views, at)
    ensures h < |room| ==> Zeroed(room[h])
  {
  }

  /** No node the step at `l` writes is one that stays untouched. */
  lemma WrittenApart(views: seq<View>, at: seq<nat>, e: Item, room: seq<Node>, l: nat, h: nat)
    requires Trail(views, at, Weight(e)) && Apart(views[0]) && Roomy(views[0], room) && l < |at|
    ensures views[l].at !in SideNodes(views, at) && (forall m :: 0 <= m < l ==> views[m].at != views[l].at)
    ensures forall i :: 0 <= i < |room| ==> room[i] != views[l].at
    ensures h < |room| ==> room[h] !in SideNodes(views, at)
    ensures forall m :: 0 <= m <= l && h < |room| ==> room[h] != views[m].at
    ensures forall i :: h < i < |room| ==> room[i] != room[h]
  {
    hide Child, Nodes, Apart;
    PathBeside(views, at, Weight(e));
    SidesBelow(views, at, Weight(e));
    TrailInTree(views, at, Weight(e));
    forall m | 0 <= m < l
      ensures views[m].at != views[l].at
    {
      TrailDistinct(views, at, Weight(e), m, l);
    }
  }

  /** Node `l` of the path became `g`, and every node below it holds its part of `g`. */
  ghost predicate Climbed(views: seq<View>, at: seq<nat>, e: Item, room: seq<Node>, l: nat, g: Grown<Node, Item>)
    requires |views| == |at| + 1 && l <= |at|
    reads AllNodes(Trees(g))
  {
    Grew(views[l], |at| - l, e, room, g) && AllMatch(Trees(g)) && Trees(g)[0].at == views[l].at
  }

  lemma ClimbedParts(views: seq<View>, at: seq<nat>, e: Item, room: seq<Node>, l: nat, g: Grown<Node, Item>)
    requires |views| == |at| + 1 && l <= |at| && Climbed(views, at, e, room, l, g)
    ensures Grew(views[l], |at| - l, e, room, g) && AllMatch(Trees(g)) && Trees(g)[0].at == views[l].at
  {
  }

  lemma ClimbedFrom(views: seq<View>, at: seq<nat>, e: Item, room: seq<Node>, l: nat, g: Grown<Node, Item>)
    requires |views| == |at| + 1 && l <= |at|
    requires Grew(views[l], |at| - l, e, room, g) && AllMatch(Trees(g)) && Trees(g)[0].at == views[l].at
    ensures Climbed(views, at, e, room, l, g)
  {
  }

  /** The path and room of an insertion of `e`, as the search left them. */
  ghost predicate Path(views: seq<View>, at: seq<nat>, e: Item, room: seq<Node>)
  {
    && Trail(views, at, Weight(e)) && Apart(views[0]) && Shape(views[0], |at|)
    && Roomy(views[0], room) && Splits(Weight, views[0], |at|, Weight(e)) <= |room|
  }

  lemma RightApart(views: seq<View>, at: seq<nat>, e: Item, room: seq<Node>, l: nat, h: nat)
    requires Path(views, at, e, room) && l < |at| && h < |room|
    ensures views[l].Inner? ==> forall i :: 0 <= i < |views[l].kids| && i != at[l] ==> room[h] !in Nodes(views[l].kids[i])
  {
    hide Child, Nodes, Apart, Splits, ShapeUpTo;
    SidesBelow(views, at, Weight(e));
    if views[l].Inner? {
      forall i | 0 <= i < |views[l].kids| && i != at[l]
        ensures Nodes(views[l].kids[i]) <= Nodes(views[0])
      {
        assert forall n :: n in Nodes(views[l].kids[i]) ==> n in SideNodes(views, at);
      }
    }
  }

  lemma StepReady(views: seq<View>, at: seq<nat>, e: Item, room: seq<Node>, l: nat, g: Grown<Node, Item>,
                  made: Node?, key: Item, size: nat, right: Node?)
    requires |views| == |at| + 1 && l < |at| && Path(views, at, e, room)
    requires Climbed(views, at, e, room, l + 1, g) && Untouched(views, at, room, l + 1, |at| - l)
    requires Made(g, made, key, size)
    requires var full := made != null && |views[l].at.children| == FANOUT;
             right == if full && |at| - l < |room| then room[|at| - l] else null
    ensures Ready(views[l], at[l], |at| - l - 1, made, key, size, right, g, room)
    ensures made != null && |views[l].at.children| == FANOUT ==> |at| - l < |room|
  {
    hide *;
    var t := views[l];
    ClimbedParts(views, at, e, room, l + 1, g);
    PathParts(views, at, e, room);
    StepFacts(views, at, e, room, l, g);
    SidesReady(views, at, e, room, l);
    MadeSplit(g, made, key, size, t);
    ReadyFrom(t, at[l], |at| - l - 1, made, key, size, right, g, room);
  }

  lemma SidesReady(views: seq<View>, at: seq<nat>, e: Item, room: seq<Node>, l: nat)
    requires |views| == |at| + 1 && l < |at| && Path(views, at, e, room) && Untouched(views, at, room, l + 1, |at| - l)
    ensures views[l].Inner? && Holds(views[l])
    ensures forall i :: 0 <= i < |views[l].kids| && i != at[l] ==>
              && Matches(views[l].kids[i]) && views[l].at !in Nodes(views[l].kids[i])
    ensures |at| - l < |room| ==>
              && Zeroed(room[|at| - l])
              && forall i :: 0 <= i < |views[l].kids| && i != at[l] ==> room[|at| - l] !in Nodes(views[l].kids[i])
  {
    hide *;
    PathParts(views, at, e, room);
    UntouchedBelow(views, at, room, l + 1, |at| - l);
    SideKids(views, at, Weight(e), l);
    if |at| - l < |room| {
      RightApart(views, at, e, room, l, |at| - l);
    }
  }

  lemma ReadyFrom(t: View, child: nat, below: nat, made: Node?, key: Item, size: nat, right: Node?,
                  g: Grown<Node, Item>, room: seq<Node>)
    requires t.Inner? && Holds(t) && |t.kids| == |t.sizes| == |t.keys| && child < |t.kids| <= FANOUT
    requires forall i :: 0 <= i < |t.kids| && i != child ==> Matches(t.kids[i]) && t.at !in Nodes(t.kids[i])
    requires AllMatch(Trees(g)) && Trees(g)[0].at == t.kids[child].at && t.at !in AllNodes(Trees(g))
    requires ShapeGrown(g, below) && Made(g, made, key, size)
    requires if made != null && |t.kids| == FANOUT
             then below + 1 < |room| && right == room[below + 1] && right != t.at && Zeroed(right)
                  && right !in AllNodes(Trees(g))
                  && forall i :: 0 <= i < |t.kids| && i != child ==> right !in Nodes(t.kids[i])
             else right == null
    ensures Ready(t, child, below, made, key, size, right, g, room)
  {
    AllNodesHold(t.kids);
  }

  lemma PowerTwenty()
    ensures Power(HALF, 20) > LEAF_LIMIT
  {
    assert Power(8, 4) == 4096;
    assert Power(8, 8) == 4096 * 4096;
    assert Power(8, 12) == 4096 * 4096 * 4096;
    assert Power(8, 16) == 4096 * 4096 * 4096 * 4096;
    assert Power(8, 20) == 4096 * 4096 * 4096 * 4096 * 4096;
  }

  /** The step at node `l` of the path. */
  method StepUp(inner: Node, l: nat, made: Node?, key: Item, size: nat, at: seq<nat>, room: seq<Node>,
                ghost views: seq<View>, ghost e: Item, ghost g: Grown<Node, Item>)
    returns (madeUp: Node?, keyUp: Item, sizeUp: nat, ghost up: Grown<Node, Item>)
    requires |views| == |at| + 1 && l < |at| && Path(views, at, e, room) && inner == views[l].at
    requires Climbed(views, at, e, room, l + 1, g) && Untouched(views, at, room, l + 1, |at| - l)
    requires Made(g, made, key, size)
    modifies inner`children, inner`sizes, inner`keys
    modifies (set n | n in room)`children, (set n | n in room)`sizes, (set n | n in room)`keys
    ensures Climbed(views, at, e, room, l, up) && Untouched(views, at, room, l, |at| - l + 1)
    ensures Made(up, madeUp, keyUp, sizeUp)
  {
    hide *;
    var right := null;
    if made != null && |inner.children| == FANOUT && |at| - l < |room| {
      right := room[|at| - l];
    }
    StepReady(views, at, e, room, l, g, made, key, size, right);
    StepGrows(views, at, e, room, l, g);
    PathParts(views, at, e, room);
    WrittenApart(views, at, e, room, l, |at| - l);
    UntouchedBelow(views, at, room, l + 1, |at| - l);
    assert allocated(SideNodes(views, at));
    madeUp, keyUp, sizeUp := GrowUp(inner, at[l], |at| - l - 1, made, key, size, right, views[l], g, room);
    up := Halve(Widen(views[l], at[l], g), room, |at| - l);
    ClimbedFrom(views, at, e, room, l, up);
  }

  /** What node `l` of the path becomes. */
  lemma StepGrows(views: seq<View>, at: seq<nat>, e: Item, room: seq<Node>, l: nat, g: Grown<Node, Item>)
    requires |views| == |at| + 1 && l < |at| && Path(views, at, e, room) && Climbed(views, at, e, room, l + 1, g)
    ensures views[l].Inner? && |views[l].kids| == |views[l].sizes| == |views[l].keys| && at[l] < |views[l].kids|
    ensures Over(Widen(views[l], at[l], g)) ==> |at| - l < |room|
    ensures Grew(views[l], |at| - l, e, room, Halve(Widen(views[l], at[l], g), room, |at| - l))
  {
    hide *;
    ClimbedParts(views, at, e, room, l + 1, g);
    PathParts(views, at, e, room);
    StepFacts(views, at, e, room, l, g);
  }

  lemma MadeSplit(g: Grown<Node, Item>, made: Node?, key: Item, size: nat, t: View)
    requires Made(g, made, key, size) && t.Inner? && Holds(t)
    ensures (g.Split? <==> made != null) && |t.at.children| == |t.kids|
  {
  }

  lemma PathFrom(views: seq<View>, at: seq<nat>, path: seq<Node>, end: Node, slot: nat, e: Item, w: real, room: seq<Node>)
    requires w == Weight(e) && Aimed(views, at, path, end, slot, w) && Apart(views[0]) && AllZeroed(room)
    requires Takes(views[0], |at|, w, room) && (forall i :: 0 <= i < |room| ==> room[i] !in Nodes(views[0]))
    ensures Path(views, at, e, room)
  {
  }

  lemma HoldsOnPath(views: seq<View>, at: seq<nat>, w: real)
    requires Trail(views, at, w) && Matches(views[0])
    ensures forall l :: 0 <= l < |views| ==> Holds(views[l])
  {
    hide *;
    forall l | 0 <= l < |views|
      ensures Holds(views[l])
    {
      TrailMatches(views, at, w, l);
      MatchesHolds(views[l]);
    }
  }

  ghost function EmptyView(leaf: Node): View {
    Leaf(leaf, [])
  }

  lemma EmptyLeaf(leaf: Node)
    requires Zeroed(leaf)
    ensures Sound(EmptyView(leaf), 0) && Entries(EmptyView(leaf)) == [] && Leaves(EmptyView(leaf)) == [EmptyView(leaf)]
  {
    OneFlat(EmptyView(leaf));
  }

  lemma {:induction false} PowerGrows(base: nat, m: nat, n: nat)
    requires base > 0 && m <= n
    ensures Power(base, m) <= Power(base, n)
  {
    if m < n {
      PowerGrows(base, m, n - 1);
    }
  }

  lemma PathParts(views: seq<View>, at: seq<nat>, e: Item, room: seq<Node>)
    requires Path(views, at, e, room)
    ensures Trail(views, at, Weight(e)) && Apart(views[0]) && Shape(views[0], |at|)
    ensures Roomy(views[0], room) && Splits(Weight, views[0], |at|, Weight(e)) <= |room|
  {
  }

  /** Every step up the path, from the leaf's. */
  method GrowPath(path: seq<Node>, made0: Node?, key0: Item, size0: nat, at: seq<nat>, room: seq<Node>,
                  ghost views: seq<View>, ghost e: Item, ghost g0: Grown<Node, Item>)
    returns (made: Node?, key: Item, size: nat, ghost g: Grown<Node, Item>)
    requires |views| == |at| + 1 && |path| == |at| && Path(views, at, e, room)
    requires forall l :: 0 <= l < |at| ==> path[l] == views[l].at
    requires Climbed(views, at, e, room, |at|, g0) && Untouched(views, at, room, |at|, 1)
    requires Made(g0, made0, key0, size0)
    modifies (set n | n in path)`children, (set n | n in path)`sizes, (set n | n in path)`keys
    modifies (set n | n in room)`children, (set n | n in room)`sizes, (set n | n in room)`keys
    ensures Climbed(views, at, e, room, 0, g) && Untouched(views, at, room, 0, |at| + 1)
    ensures Made(g, made, key, size)
  {
    hide *;
    made, key, size, g := made0, key0, size0, g0;
    var level: nat := |path|;
    while level > 0
      invariant level <= |at|
      invariant Climbed(views, at, e, room, level, g) && Untouched(views, at, room, level, |at| - level + 1)
      invariant Made(g, made, key, size)
    {
      level := level - 1;
      made, key, size, g := StepUp(path[level], level, made, key, size, at, room, views, e, g);
    }
  }

  /** Everything the invariant says of the nodes below a root. */
  ghost predicate Sound(t: View, h: nat)
    reads Nodes(t)
  {
    && Searchable(t, h, -1.0, 1.0)
    && Filled(t, 2)
    && Apart(t)
    && LeavesInNodes(t, h)
    && Chained(Leaves(t))
  }

  lemma SoundParts(t: View, h: nat)
    requires Sound(t, h)
    ensures Matches(t) && Shape(t, h) && Ordered(Weight, t, -1.0, 1.0) && Searchable(t, h, -1.0, 1.0)
    ensures Filled(t, 2) && Apart(t) && Chained(Leaves(t))
    ensures forall i :: 0 <= i < |Leaves(t)| ==> Leaves(t)[i].at in Nodes(t)
  {
  }

  lemma SoundFrom(t: View, h: nat)
    requires Matches(t) && Shape(t, h) && Ordered(Weight, t, -1.0, 1.0) && Filled(t, 2) && Apart(t) && Chained(Leaves(t))
    ensures Sound(t, h)
  {
    LeavesAreNodes(t, h);
  }

  // ---------- An insertion: the leaf ----------

  /** Everything an insertion relies on, before its first write. */
  lemma BeforeInsertion(views: seq<View>, at: seq<nat>, e: Item, room: seq<Node>)
    requires Path(views, at, e, room) && Matches(views[0]) && AllZeroed(room)
    ensures Untouched(views, at, room, |at|, 1) && Holds(views[|at|]) && Shape(views[|at|], 0)
    ensures Splits(Weight, views[|at|], 0, Weight(e)) <= |room|
  {
    hide *;
    PathParts(views, at, e, room);
    TrailSides(views, at, Weight(e));
    SplitsGrow(views, at, Weight(e), |at|);
    forall m | 0 <= m <= |at|
      ensures Holds(views[m])
    {
      TrailMatches(views, at, Weight(e), m);
      MatchesHolds(views[m]);
    }
    UntouchedFrom(views, at, room);
  }

  lemma MatchesHolds(t: View)
    requires Matches(t)
    ensures Holds(t)
  {
  }

  lemma UntouchedFrom(views: seq<View>, at: seq<nat>, room: seq<Node>)
    requires |views| == |at| + 1 && Sides(views, at) && (forall m :: 0 <= m < |at| ==> Holds(views[m])) && AllZeroed(room)
    ensures Untouched(views, at, room, |at|, 1)
  {
  }

  /** No node the step at the leaf writes is one that stays untouched. */
  lemma LeafApart(views: seq<View>, at: seq<nat>, e: Item, room: seq<Node>)
    requires Path(views, at, e, room)
    ensures views[|at|].at !in SideNodes(views, at) && (forall m :: 0 <= m < |at| ==> views[m].at != views[|at|].at)
    ensures forall i :: 0 <= i < |room| ==> room[i] != views[|at|].at
    ensures |room| > 0 ==> room[0] !in SideNodes(views, at)
    ensures forall m :: 0 <= m <= |at| && |room| > 0 ==> room[0] != views[m].at
    ensures forall i :: 0 < i < |room| ==> room[i] != room[0]
  {
    hide Child, Nodes, Apart, ShapeUpTo, Splits;
    PathBeside(views, at, Weight(e));
    SidesBelow(views, at, Weight(e));
    TrailInTree(views, at, Weight(e));
    forall m | 0 <= m < |at|
      ensures views[m].at != views[|at|].at
    {
      TrailDistinct(views, at, Weight(e), m, |at|);
    }
  }

  lemma LeafGrew(t: View, e: Item, room: seq<Node>, place: nat)
    requires Shape(t, 0) && t.Leaf? && Splits(Weight, t, 0, Weight(e)) <= |room| && place == Place(Weight, t.entries, Weight(e))
    ensures |t.entries| <= FANOUT && (|t.entries| == FANOUT ==> |room| > 0)
    ensures Grew(t, 0, e, room, Halve(PutEntry(t, place, e), room, 0))
    ensures Halve(PutEntry(t, place, e), room, 0) == GrownLeaf(Weight, t, e, room)
    ensures GrownLeaf(Weight, t, e, room).Split? <==> |t.entries| == FANOUT
    ensures Trees(GrownLeaf(Weight, t, e, room))[0].at == t.at
    ensures forall i :: 0 <= i < |Trees(GrownLeaf(Weight, t, e, room))| ==> Trees(GrownLeaf(Weight, t, e, room))[i].Leaf?
  {
  }

  lemma LeavesMatch(g: Grown<Node, Item>)
    requires HoldsGrown(g) && forall i :: 0 <= i < |Trees(g)| ==> Trees(g)[i].Leaf?
    ensures AllMatch(Trees(g))
  {
    AllNodesHold(Trees(g));
  }

  /** The step at the leaf of the path. */
  method LeafStep(leaf: Node, place: nat, at: seq<nat>, room: seq<Node>, ghost views: seq<View>, e: Item)
    returns (made: Node?, key: Item, size: nat, into: Node, slot: nat, ghost g: Grown<Node, Item>)
    requires |views| == |at| + 1 && Path(views, at, e, room) && Matches(views[0]) && AllZeroed(room)
    requires views[|at|].Leaf? && leaf == views[|at|].at && leaf.entries == views[|at|].entries
    requires place == Place(Weight, leaf.entries, Weight(e))
    modifies {leaf}`entries, {leaf}`next, (set n | n in room)`entries, (set n | n in room)`next
    ensures Climbed(views, at, e, room, |at|, g) && Untouched(views, at, room, |at|, 1)
    ensures Made(g, made, key, size)
    ensures |views[|at|].entries| < FANOUT ==> leaf.next == old(leaf.next)
    ensures |views[|at|].entries| >= FANOUT ==> |room| > 0 && leaf.next == room[0] && room[0].next == old(leaf.next)
    ensures slot < |into.entries| && into.entries[slot] == e
  {
    hide *;
    ghost var t := views[|at|];
    BeforeInsertion(views, at, e, room);
    LeafApart(views, at, e, room);
    LeafGrew(t, e, room, place);
    var right := null;
    if |leaf.entries| == FANOUT {
      right := room[0];
      FirstZeroed(room);
    }
    assert allocated(SideNodes(views, at));
    made, key, size, into, slot := PutInLeaf(leaf, place, e, right, t, room);
    g := GrownLeaf(Weight, t, e, room);
    LeavesMatch(g);
    ClimbedFrom(views, at, e, room, |at|, g);
  }

  lemma FirstZeroed(room: seq<Node>)
    requires AllZeroed(room) && |room| > 0
    ensures Zeroed(room[0])
  {
  }

  // ---------- An insertion: the root and the links of the leaves ----------

  /** A root above the two nodes the old root became. */
  method GrowRoot(root: Node, made: Node, key: Item, size: nat, below: nat, top: Node,
                  ghost g: Grown<Node, Item>, ghost room: seq<Node>)
    requires g.Split? && AllMatch(Trees(g)) && ShapeGrown(g, below) && Made(g, made, key, size) && root == g.left.at
    requires below + 1 < |room| && top == room[below + 1] && top !in AllNodes(Trees(g)) && Zeroed(top)
    modifies {top}`children, {top}`sizes, {top}`keys
    ensures Matches(Rooted(g, room, below + 1, ZERO))
  {
    assert Trees(g)[0] == g.left && Trees(g)[1] == g.right;
    hide Nodes, AllNodes, Matches, ShapeUpTo, Size;
    MatchesHolds(g.left);
    assert allocated(AllNodes(Trees(g)));
    var rootSize := TreeSize(root, below, g.left);
    top.children := [root, made];
    top.sizes := [rootSize, size];
    top.keys := [ZERO, key];
    RootMatches(g, room, below + 1);
  }

  lemma RootMatches(g: Grown<Node, Item>, room: seq<Node>, h: nat)
    requires g.Split? && AllMatch(Trees(g)) && h < |room| && Holds(Rooted(g, room, h, ZERO))
    ensures Matches(Rooted(g, room, h, ZERO))
  {
    hide Nodes, AllNodes;
    var r := Rooted(g, room, h, ZERO);
    assert r.kids == Trees(g);
    NodesAt(r);
    AllNodesHold(r.kids);
  }

  lemma LeafIsLeaves(t: View)
    requires t.Leaf?
    ensures Leaves(t) == [t]
  {
  }

  lemma GrownAts(t: View, e: Item, room: seq<Node>)
    requires t.Leaf? && |t.entries| <= FANOUT && (|t.entries| == FANOUT ==> |room| > 0)
    ensures var g := GrownLeaf(Weight, t, e, room);
            if |t.entries| < FANOUT then g.Took? && g.tree.Leaf? && g.tree.at == t.at
            else g.Split? && g.left.Leaf? && g.right.Leaf? && g.left.at == t.at && g.right.at == room[0]
  {
  }

  /** Leaves one of which grew, linked as the step at the leaf left them. */
  lemma GrownChained(ls: seq<View>, i: nat, e: Item, room: seq<Node>)
    requires i < |ls| && ls[i].Leaf? && |ls[i].entries| <= FANOUT && (|ls[i].entries| == FANOUT ==> |room| > 0)
    requires Linked(Ats(ls), Nexts(ls), i)
    requires |ls[i].entries| < FANOUT ==> ls[i].at.next == Nexts(ls)[i]
    requires |ls[i].entries| == FANOUT ==> ls[i].at.next == room[0] && room[0].next == Nexts(ls)[i]
    ensures Chained(Regrown(Weight, ls, i, e, room))
  {
    hide *;
    GrownAts(ls[i], e, room);
    var g := GrownLeaf(Weight, ls[i], e, room);
    GrownTo(ls, i, e, room);
    if g.Took? {
      LinkedAgain(ls, i);
      StillChained(ls, ls[i := g.tree]);
    } else {
      SplitChained(ls, i, g.left, g.right);
    }
  }

  lemma LinkedAgain(ls: seq<View>, i: nat)
    requires i < |ls| && Linked(Ats(ls), Nexts(ls), i) && ls[i].at.next == Nexts(ls)[i]
    ensures Linked(Ats(ls), Nexts(ls), -1)
  {
  }

  lemma GrownTo(ls: seq<View>, i: nat, e: Item, room: seq<Node>)
    requires i < |ls| && ls[i].Leaf? && |ls[i].entries| <= FANOUT && (|ls[i].entries| == FANOUT ==> |room| > 0)
    ensures var g := GrownLeaf(Weight, ls[i], e, room);
            Regrown(Weight, ls, i, e, room) == if g.Took? then ls[i := g.tree] else ls[..i] + [g.left, g.right] + ls[i + 1..]
  {
    hide *;
    GrownAts(ls[i], e, room);
    var g := GrownLeaf(Weight, ls[i], e, room);
    RegrownIs(ls, i, e, room);
    if g.Took? {
      OneLeaves(g.tree);
      LeafIsLeaves(g.tree);
      TookIs(g);
    } else {
      TwoLeaves(g.left, g.right);
      LeafIsLeaves(g.left);
      LeafIsLeaves(g.right);
      SplitIs(g);
    }
  }

  lemma RegrownIs(ls: seq<View>, i: nat, e: Item, room: seq<Node>)
    requires i < |ls| && ls[i].Leaf? && |ls[i].entries| <= FANOUT && (|ls[i].entries| == FANOUT ==> |room| > 0)
    ensures Regrown(Weight, ls, i, e, room) == ls[..i] + AllLeaves(Trees(GrownLeaf(Weight, ls[i], e, room))) + ls[i + 1..]
  {
    hide AllLeaves, GrownLeaf, Trees;
  }

  lemma TookIs(g: Grown<Node, Item>)
    requires g.Took?
    ensures Trees(g) == [g.tree]
  {
  }

  lemma SplitIs(g: Grown<Node, Item>)
    requires g.Split?
    ensures Trees(g) == [g.left, g.right]
  {
  }

  lemma SplitChained(ls: seq<View>, i: nat, left: View, right: View)
    requires i < |ls| && left.at == ls[i].at && Linked(Ats(ls), Nexts(ls), i)
    requires ls[i].at.next == right.at && right.at.next == Nexts(ls)[i]
    ensures Chained(ls[..i] + [left, right] + ls[i + 1..])
  {
    var r := ls[..i] + [left, right] + ls[i + 1..];
    forall k | 0 <= k < |r|
      ensures r[k].at == if k <= i then ls[k].at else if k == i + 1 then right.at else ls[k - 1].at
    {
    }
    forall k | 0 <= k < |r|
      ensures r[k].at.next == After(r, k)
    {
      if k > i + 1 {
        assert Ats(ls)[k - 1].next == Nexts(ls)[k - 1];
      } else if k < i {
        assert Ats(ls)[k].next == Nexts(ls)[k];
      }
    }
  }

  // ---------- An insertion: the whole ----------

  /** Its entries are the tree's, and the new one at its rank. */
  lemma InsertedEntries(t: View, h: nat, e: Item, room: seq<Node>, g: Grown<Node, Item>)
    requires Grew(t, h, e, room, g) && (g.Split? ==> h + 1 < |room|)
    ensures var r := Rooted(g, room, h + 1, ZERO);
            && Leaves(r) == GrownLeaves(Weight, t, h, e, room)
            && Rank(Weight, t, h, Weight(e)) <= |Entries(t)|
            && Entries(r) == With(Entries(t), Rank(Weight, t, h, Weight(e)), e) && |Entries(r)| == |Entries(t)| + 1
  {
    hide *;
    GrewParts(t, h, e, room, g);
    InsertShape(Weight, t, h, e, room);
    RootedShape(g, room, h, ZERO);
    InsertLeaves(Weight, t, h, e, room);
    InsertEntries(Weight, t, h, e, room);
    EntriesOf(Rooted(g, room, h + 1, ZERO));
    WithCounts(Entries(t), Rank(Weight, t, h, Weight(e)), e);
  }

  /** Its nodes are half full under the root. */
  lemma InsertedFilled(t: View, h: nat, e: Item, room: seq<Node>, g: Grown<Node, Item>)
    requires Grew(t, h, e, room, g) && Filled(t, 2) && (g.Split? ==> h + 1 < |room|)
    ensures Filled(Rooted(g, room, h + 1, ZERO), 2)
  {
    hide *;
    GrewParts(t, h, e, room, g);
    InsertFilled(Weight, t, h, e, room, 2);
    RootedFilled(g, room, h + 1);
  }

  lemma WithCounts<T>(s: seq<T>, r: nat, e: T)
    requires r <= |s|
    ensures |With(s, r, e)| == |s| + 1 && With(s, r, e)[r] == e
  {
  }

  lemma EntriesOf(t: View)
    ensures Entries(t) == Flat(Leaves(t))
  {
  }

  lemma RootedFilled(g: Grown<Node, Item>, room: seq<Node>, h: nat)
    requires FilledGrown(g, 2) && (g.Split? ==> h < |room|)
    ensures Filled(Rooted(g, room, h, ZERO), 2)
  {
  }

  lemma InsertedNodes(t: View, h: nat, e: Item, room: seq<Node>, g: Grown<Node, Item>)
    requires Grew(t, h, e, room, g) && Apart(t) && Roomy(t, room) && (g.Split? ==> h + 1 < |room|)
    ensures g.Split? ==> room[h + 1] !in AllNodes(Trees(g))
    ensures AllNodes(Trees(g)) <= Nodes(t) + (set n | n in room)
    ensures var r := Rooted(g, room, h + 1, ZERO);
            Apart(r) && Nodes(r) <= Nodes(t) + (set n | n in room)
  {
    hide Insert, Rooted, Trees, AllApart, Apart, Nodes, AllNodes, Splits, ShapeUpTo;
    InsertNodes(Weight, t, h, e, room);
    SplitsBound(t, h, e, room, g);
    RootedNodes(g, room, h + 1, ZERO);
  }

  lemma SplitsBound(t: View, h: nat, e: Item, room: seq<Node>, g: Grown<Node, Item>)
    requires Grew(t, h, e, room, g)
    ensures Splits(Weight, t, h, Weight(e)) <= h + 1
  {
  }

  lemma {:induction false} TrailLeaf(views: seq<View>, at: seq<nat>, w: real, l: nat)
    requires Trail(views, at, w) && Shape(views[0], |at|) && l < |views| && views[|at|].Leaf?
    ensures Shape(views[l], |at| - l)
    ensures Leaves(views[l])[LeafIndex(Weight, views[l], |at| - l, w)] == views[|at|]
    decreases |views| - l
  {
    hide *;
    TrailLength(views, at, w);
    TrailShape(views, at, w, l);
    if l < |at| {
      TrailLeaf(views, at, w, l + 1);
      TrailAt(views, at, w, l);
      LeafIndexSides(Weight, views[l], |at| - l, w);
    } else {
      LeafIsLeaves(views[l]);
      assert LeafIndex(Weight, views[l], 0, w) < |Leaves(views[l])|;
    }
  }

  lemma LeavesApart(t: View, h: nat, i: nat, room: seq<Node>)
    requires Shape(t, h) && Apart(t) && i < |Leaves(t)| && Roomy(t, room)
    ensures forall k :: 0 <= k < |Ats(Leaves(t))| && k != i ==>
              Ats(Leaves(t))[k] !in room && Ats(Leaves(t))[k] != Leaves(t)[i].at
  {
    hide Leaves, Nodes, Apart, ShapeUpTo;
    LeavesDistinct(t, h);
    LeavesAreNodes(t, h);
  }

  lemma GrownLeavesAre(t: View, h: nat, e: Item, room: seq<Node>)
    requires Shape(t, h) && Splits(Weight, t, h, Weight(e)) <= |room|
    ensures var i := LeafIndex(Weight, t, h, Weight(e));
            && Leaves(t)[i].Leaf? && |Leaves(t)[i].entries| <= FANOUT
            && (|Leaves(t)[i].entries| == FANOUT ==> |room| > 0)
            && GrownLeaves(Weight, t, h, e, room) == Regrown(Weight, Leaves(t), i, e, room)
  {
    hide Leaves, LeafIndex, Splits, ShapeUpTo, Regrown;
    SplitsAtLeaf(Weight, t, h, Weight(e));
  }

  lemma TookMatches(g: Grown<Node, Item>, room: seq<Node>, h: nat)
    requires g.Took? && AllMatch(Trees(g))
    ensures Matches(Rooted(g, room, h, ZERO))
  {
    assert Trees(g)[0] == g.tree;
  }

  /** A tree a new entry of weight `w` may go in, and the nodes it needs. */
  ghost predicate Takes(t: View, h: nat, w: real, room: seq<Node>)
  {
    && Shape(t, h) && !Has(Weight, t, h, w)
    && Splits(Weight, t, h, w) <= |room| && (Splits(Weight, t, h, w) > h ==> h + 1 < |room|)
  }

  /** `r` holds the entries of `t` and `e` at its rank, in the nodes of `t` and of `room`. */
  ghost predicate Gained(t: View, h: nat, e: Item, room: seq<Node>, r: View)
  {
    && Shape(t, h) && Rank(Weight, t, h, Weight(e)) <= |Entries(t)|
    && Entries(r) == With(Entries(t), Rank(Weight, t, h, Weight(e)), e) && |Entries(r)| == |Entries(t)| + 1
    && Nodes(r) <= Nodes(t) + (set n | n in room)
    && |Leaves(r)| <= |Leaves(t)| + if Entries(t) == [] then 0 else 1
  }

  lemma TakesParts(t: View, h: nat, w: real, room: seq<Node>)
    requires Takes(t, h, w, room)
    ensures Shape(t, h) && !Has(Weight, t, h, w) && Splits(Weight, t, h, w) <= |room|
    ensures Splits(Weight, t, h, w) > h ==> h + 1 < |room|
  {
  }

  lemma TakesFrom(t: View, h: nat, w: real, room: seq<Node>)
    requires Shape(t, h) && !Has(Weight, t, h, w)
    requires |room| == Splits(Weight, t, h, w) + if Splits(Weight, t, h, w) > h then 1 else 0
    ensures Takes(t, h, w, room)
  {
  }

  lemma GainedFrom(t: View, h: nat, e: Item, room: seq<Node>, r: View)
    requires Shape(t, h) && Rank(Weight, t, h, Weight(e)) <= |Entries(t)|
    requires Entries(r) == With(Entries(t), Rank(Weight, t, h, Weight(e)), e) && |Entries(r)| == |Entries(t)| + 1
    requires Nodes(r) <= Nodes(t) + (set n | n in room) && |Leaves(r)| <= |Leaves(t)| + if Entries(t) == [] then 0 else 1
    ensures Gained(t, h, e, room, r)
  {
  }

  lemma GainedParts(t: View, h: nat, e: Item, room: seq<Node>, r: View, rank: nat)
    requires Gained(t, h, e, room, r) && Shape(t, h) && rank == Rank(Weight, t, h, Weight(e))
    ensures rank <= |Entries(t)| && Entries(r) == With(Entries(t), rank, e) && |Entries(r)| == |Entries(t)| + 1
    ensures Nodes(r) <= Nodes(t) + (set n | n in room) && |Leaves(r)| <= |Leaves(t)| + if Entries(t) == [] then 0 else 1
  {
  }

  /** The steps at the leaf and up the path, which leave the leaves linked. */
  method GrowNodes(leaf: Node, place: nat, path: seq<Node>, at: seq<nat>, room: seq<Node>, e: Item, ghost views: seq<View>)
    returns (made: Node?, key: Item, size: nat, into: Node, slot: nat, ghost g: Grown<Node, Item>)
    requires Aimed(views, at, path, leaf, place, Weight(e)) && Path(views, at, e, room) && AllZeroed(room)
    requires Matches(views[0]) && Chained(Leaves(views[0])) && Splits(Weight, views[0], |at|, Weight(e)) <= |room|
    modifies {leaf}`entries, {leaf}`next, set n | n in room
    modifies (set n | n in path)`children, (set n | n in path)`sizes, (set n | n in path)`keys
    ensures Climbed(views, at, e, room, 0, g) && Untouched(views, at, room, 0, |at| + 1)
    ensures Made(g, made, key, size) && Chained(GrownLeaves(Weight, views[0], |at|, e, room))
    ensures slot < |into.entries| && into.entries[slot] == e
  {
    hide *;
    AimedParts(views, at, path, leaf, place, Weight(e));
    ghost var t, h, w := views[0], |at|, Weight(e);
    PathParts(views, at, e, room);
    ghost var ls, i := Leaves(t), LeafIndex(Weight, t, h, w);
    ChainedLinks(ls, i);
    TrailLeaf(views, at, w, 0);
    GrownLeavesAre(t, h, e, room);
    LeavesApart(t, h, i, room);
    assert allocated(ls) && allocated(Ats(ls)) && ls[i].at == leaf;
    made, key, size, into, slot, g := LeafStep(leaf, place, at, room, views, e);
    made, key, size, g := GrowPath(path, made, key, size, at, room, views, e, g);
    GrownChained(ls, i, e, room);
  }

  /** A new entry put in a sound tree, in the nodes it has and those of `room`. */
  method InsertBelow(root: Node, leaf: Node, place: nat, path: seq<Node>, at: seq<nat>, room: seq<Node>, e: Item,
                     ghost views: seq<View>)
    returns (top: Node, levels: nat, into: Node, slot: nat, ghost r: View)
    requires Aimed(views, at, path, leaf, place, Weight(e)) && Path(views, at, e, room) && AllZeroed(room)
    requires Keyed(e) && root == views[0].at && Sound(views[0], |at|) && Takes(views[0], |at|, Weight(e), room)
    modifies Nodes(views[0]), set n | n in room
    ensures top == r.at && Sound(r, levels) && Gained(views[0], |at|, e, room, r)
    ensures slot < |into.entries| && into.entries[slot] == e
  {
    hide *;
    AimedParts(views, at, path, leaf, place, Weight(e));
    var h: nat := |at|;
    ghost var t, w := views[0], Weight(e);
    TakesParts(t, h, w, room);
    SoundParts(t, h);
    var made, key, size;
    ghost var g;
    made, key, size, into, slot, g := GrowNodes(leaf, place, path, at, room, e, views);
    InsertedAbove(views, at, e, room, g);
    r := Rooted(g, room, h + 1, ZERO);
    top, levels := TopOff(root, made, key, size, at, room, e, views, g);
    assert slot < |into.entries| && into.entries[slot] == e;
    SoundFrom(r, levels);
  }

  /** What an insertion that climbed to the root makes of the value of the tree. */
  lemma InsertedAbove(views: seq<View>, at: seq<nat>, e: Item, room: seq<Node>, g: Grown<Node, Item>)
    requires |views| == |at| + 1 && Path(views, at, e, room) && Climbed(views, at, e, room, 0, g)
    requires Keyed(e) && Ordered(Weight, views[0], -1.0, 1.0) && Filled(views[0], 2) && Takes(views[0], |at|, Weight(e), room)
    ensures g.Split? ==> |at| + 1 < |room|
    ensures var r := Rooted(g, room, |at| + 1, ZERO);
            && Shape(r, if g.Took? then |at| else |at| + 1) && Ordered(Weight, r, -1.0, 1.0) && Filled(r, 2) && Apart(r)
            && Gained(views[0], |at|, e, room, r)
            && Shape(views[0], |at|) && Splits(Weight, views[0], |at|, Weight(e)) <= |room|
            && Leaves(r) == GrownLeaves(Weight, views[0], |at|, e, room)
  {
    hide *;
    KeyWeight(e);
    TakesParts(views[0], |at|, Weight(e), room);
    PathParts(views, at, e, room);
    ClimbedParts(views, at, e, room, 0, g);
    SplitsToTop(views[0], |at|, e, room, g);
    GrewParts(views[0], |at|, e, room, g);
    InsertedOrder(Weight, views[0], |at|, e, room, ZERO, -1.0, 1.0);
    InsertedFilled(views[0], |at|, e, room, g);
    InsertedNodes(views[0], |at|, e, room, g);
    InsertedEntries(views[0], |at|, e, room, g);
    GrownLeavesCount(Weight, views[0], |at|, e, room);
    GainedFrom(views[0], |at|, e, room, Rooted(g, room, |at| + 1, ZERO));
  }

  /** The root over what the old root became: itself, or a node above the two. */
  method TopOff(root: Node, made: Node?, key: Item, size: nat, at: seq<nat>, room: seq<Node>, ghost e: Item,
                ghost views: seq<View>, ghost g: Grown<Node, Item>) returns (top: Node, levels: nat)
    requires |views| == |at| + 1 && Path(views, at, e, room) && root == views[0].at
    requires Climbed(views, at, e, room, 0, g) && Untouched(views, at, room, 0, |at| + 1)
    requires Made(g, made, key, size) && (g.Split? ==> |at| + 1 < |room|)
    requires Chained(Leaves(Rooted(g, room, |at| + 1, ZERO)))
    modifies (set n | n in room)`children, (set n | n in room)`sizes, (set n | n in room)`keys
    ensures Matches(Rooted(g, room, |at| + 1, ZERO)) && Chained(Leaves(Rooted(g, room, |at| + 1, ZERO)))
    ensures top == Rooted(g, room, |at| + 1, ZERO).at && levels == if g.Took? then |at| else |at| + 1
  {
    hide *;
    PathParts(views, at, e, room);
    ClimbedParts(views, at, e, room, 0, g);
    RootedAt(g, room, |at| + 1);
    SplitMade(g, made, key, size);
    if made == null {
      TookMatches(g, room, |at| + 1);
      return root, |at|;
    }
    top, levels := room[|at| + 1], |at| + 1;
    UntouchedTop(views, at, room);
    GrewShape(views[0], |at|, e, room, g);
    InsertedNodes(views[0], |at|, e, room, g);
    LeavesInGrown(g, room, |at|);
    assert allocated(AllNodes(Trees(g)));
    GrowRoot(root, made, key, size, |at|, top, g, room);
  }

  lemma SplitMade(g: Grown<Node, Item>, made: Node?, key: Item, size: nat)
    requires Made(g, made, key, size)
    ensures g.Split? <==> made != null
    ensures g.Split? ==> made == g.right.at && key == g.key && size == Size(g.right)
    ensures g.Split? ==> Trees(g)[0] == g.left
  {
  }

  lemma LeavesInGrown(g: Grown<Node, Item>, room: seq<Node>, h: nat)
    requires ShapeGrown(g, h) && g.Split? && h + 1 < |room|
    ensures var ls := Leaves(Rooted(g, room, h + 1, ZERO)); forall i :: 0 <= i < |ls| ==> ls[i].at in AllNodes(Trees(g))
  {
    hide Leaves, AllLeaves, Nodes, AllNodes;
    RootedShape(g, room, h, ZERO);
    AllLeavesAreNodes(Trees(g), h);
  }

  lemma UntouchedTop(views: seq<View>, at: seq<nat>, room: seq<Node>)
    requires |views| == |at| + 1 && Untouched(views, at, room, 0, |at| + 1) && |at| + 1 < |room|
    ensures Zeroed(room[|at| + 1])
  {
  }

  lemma SplitsToTop(t: View, h: nat, e: Item, room: seq<Node>, g: Grown<Node, Item>)
    requires Grew(t, h, e, room, g)
    ensures g.Split? <==> Splits(Weight, t, h, Weight(e)) > h
  {
  }

  lemma RootedAt(g: Grown<Node, Item>, room: seq<Node>, k: nat)
    requires g.Split? ==> k < |room|
    ensures g.Took? ==> Rooted(g, room, k, ZERO).at == Trees(g)[0].at
    ensures g.Split? ==> Rooted(g, room, k, ZERO).at == room[k]
  {
  }


  /** `r` holds the entries of `t` but the one at rank `rank`, in the nodes of `t`. */
  ghost predicate Lost(t: View, rank: nat, r: View)
  {
    && rank < |Entries(t)| && Entries(r) == Without(Entries(t), rank) && |Entries(r)| == |Entries(t)| - 1
    && Nodes(r) == Nodes(t) && r.at == t.at && |Leaves(r)| == |Leaves(t)|
  }

  lemma LostParts(t: View, rank: nat, r: View)
    requires Lost(t, rank, r)
    ensures rank < |Entries(t)| && Entries(r) == Without(Entries(t), rank) && |Entries(r)| == |Entries(t)| - 1
    ensures Nodes(r) == Nodes(t) && r.at == t.at && |Leaves(r)| == |Leaves(t)|
  {
  }

  lemma RemovedLost(t: View, h: nat, w: real)
    requires Shape(t, h) && Has(Weight, t, h, w) && Ordered(Weight, t, -1.0, 1.0) && Filled(t, 2) && Apart(t)
    requires Remove(Weight, t, h, w).at == t.at
    ensures Lost(t, Rank(Weight, t, h, w), Remove(Weight, t, h, w))
  {
    hide *;
    RemovedTree(t, h, w);
    RemovedEntries(t, h, w);
    LostFrom(t, Rank(Weight, t, h, w), Remove(Weight, t, h, w));
  }

  lemma LostFrom(t: View, rank: nat, r: View)
    requires rank < |Entries(t)| && Entries(r) == Without(Entries(t), rank) && |Entries(r)| == |Entries(t)| - 1
    requires Nodes(r) == Nodes(t) && r.at == t.at && |Leaves(r)| == |Leaves(t)|
    ensures Lost(t, rank, r)
  {
  }

  /** The entry of key `w`, at `place` of `leaf`, out of a sound tree. */
  method RemoveBelow(leaf: Node, place: nat, path: seq<Node>, at: seq<nat>, ghost views: seq<View>, ghost w: real)
    returns (ghost r: View)
    requires Aimed(views, at, path, leaf, place, w) && Sound(views[0], |at|) && Has(Weight, views[0], |at|, w)
    modifies Nodes(views[0])
    ensures Sound(r, |at|) && Lost(views[0], Rank(Weight, views[0], |at|, w), r)
  {
    hide *;
    AimedParts(views, at, path, leaf, place, w);
    ghost var t, h := views[0], |at|;
    SoundParts(t, h);
    ghost var ls := Leaves(t);
    ChainedLinks(ls, -1);
    assert allocated(Ats(ls));
    TakeOut(leaf, place, path, at, views, w);
    RemovedIs(t, h, w);
    RemovedTree(t, h, w);
    r := Remove(Weight, t, h, w);
    StillChained(ls, Leaves(r));
    SoundFrom(r, h);
    RemovedLost(t, h, w);
  }

  lemma WalkableLeaves(t: View, h: nat)
    requires Sound(t, h)
    ensures Walkable(Leaves(t))
  {
    hide Leaves, Nodes, AllNodes;
    LeavesHold(t, h);
  }

  /** Seek in a tree that has a root. */
  method SeekIn(root: Node, levels: nat, key: Item, ghost t: View) returns (cursor: Cursor, ghost rank: nat)
    requires Keyed(key) && root == t.at && Sound(t, levels) && Searchable(t, levels, -1.0, 1.0)
    ensures fresh(cursor) && cursor.Valid()
    ensures IsRank(Weight, Entries(t), rank, Weight(key)) && cursor.Rest() == Entries(t)[rank..]
  {
    hide *;
    ghost var w := Weight(key);
    KeyWeight(key);
    SoundParts(t, levels);
    assert allocated(Nodes(t));
    var leaf, before;
    ghost var end, lo, hi;
    leaf, before, end, lo, hi := FindLeaf(root, levels, key, t);
    LeafOrdered(t, levels, end, w, lo, hi, before);
    var place := TreePlace(leaf, key, lo, hi);
    rank := before + place;
    ghost var i := SoughtThere(Weight, t, levels, end, w, -1.0, 1.0, before, place);
    FoundThere(Weight, t, levels, end, w, -1.0, 1.0, before, place);
    WalkableLeaves(t, levels);
    WalkFrom(Leaves(t), i);
    cursor := new Cursor(leaf, place, Leaves(t)[i..]);
  }

  /** The nodes an insertion needs, had before anything is written. */
  method ReserveRoom(end: Node, slot: nat, path: seq<Node>, at: seq<nat>, levels: nat, granted: bool,
                     ghost views: seq<View>, ghost w: real)
    returns (room: seq<Node>, ok: bool)
    requires Aimed(views, at, path, end, slot, w) && Matches(views[0]) && !Has(Weight, views[0], |at|, w)
    requires |at| == levels && levels + 1 < KEY_TREE_LEVELS
    ensures ok ==> AllZeroed(room) && fresh(set n | n in room) && Takes(views[0], |at|, w, room)
    ensures Shape(views[0], levels) && (ok ==> |room| == NodesFor(Splits(Weight, views[0], levels, w), levels))
    ensures granted || Splits(Weight, views[0], levels, w) == 0 ==> ok
  {
    hide *;
    NodesForIs(Splits(Weight, views[0], levels, w), levels) by { AimedParts(views, at, path, end, slot, w); }
    AimedParts(views, at, path, end, slot, w);
    HoldsOnPath(views, at, w);
    var splits := CountSplits(end, path, at, views, w);
    var rooted := if splits > levels then 1 else 0;
    assert levels + rooted < KEY_TREE_LEVELS;
    NodesForIs(splits, levels);
    room, ok := TakeRoom(splits + rooted, granted);
    if ok {
      TakesFrom(views[0], levels, w, room);
    }
  }

  /** How many nodes an insertion that splits so many takes: one for each split, and a root over a root that split. */
  ghost function NodesFor(splits: nat, levels: nat): nat
  {
    if splits > levels then splits + 1 else splits
  }

  lemma NodesForIs(splits: nat, levels: nat)
    ensures NodesFor(splits, levels) == splits + if splits > levels then 1 else 0
    ensures splits == 0 ==> NodesFor(splits, levels) == 0
  {
  }

  /** What asking a tree of entries `before` for the entry of `key` came to. */
  ghost predicate Entered(before: seq<Item>, after: seq<Item>, key: Item, leaf: Node?, place: nat, made: bool, rank: nat)
    requires Keyed(key)
    reads if leaf == null then {} else {leaf}
  {
    && IsRank(Weight, before, rank, Weight(key))
    && (HasAt(Weight, before, rank, Weight(key)) <==> leaf != null && !made)
    && after == (if made then With(before, rank, Blank(key)) else before)
    && (made ==> leaf != null)
    && (leaf != null ==> rank < |after| && place < |leaf.entries| && leaf.entries[place] == after[rank])
  }

  lemma EnteredAs(before: seq<Item>, after: seq<Item>, key: Item, leaf: Node?, place: nat, made: bool, rank: nat)
    requires Keyed(key) && IsRank(Weight, before, rank, Weight(key))
    requires HasAt(Weight, before, rank, Weight(key)) <==> leaf != null && !made
    requires after == if made then With(before, rank, Blank(key)) else before
    requires made ==> leaf != null && place < |leaf.entries| && leaf.entries[place] == Blank(key)
    requires leaf != null && !made ==> rank < |before| && place < |leaf.entries| && leaf.entries[place] == before[rank]
    ensures Entered(before, after, key, leaf, place, made, rank)
  {
  }

  lemma EnteredDenotes(before: seq<Item>, after: seq<Item>, key: Item, leaf: Node?, place: nat, made: bool, rank: nat)
    requires Keyed(key) && Listed(before) && Entered(before, after, key, leaf, place, made, rank)
    ensures Listed(after) && Denoted(after) == if made then Denoted(before)[KeyOf(key) := Blank(key)] else Denoted(before)
    ensures (made ==> leaf != null) && (leaf != null && !made <==> KeyOf(key) in Denoted(before))
    ensures leaf != null ==> place < |leaf.entries| && leaf.entries[place] == Denoted(after)[KeyOf(key)]
  {
    hide Listed, Denoted, KeyOf, Keyed, Weight, With, IsRank, HasAt, Blank;
    RankFinds(before, rank, key);
    if made {
      WithDenotes(before, rank, Blank(key));
      assert rank <= |before| by { RankSplits(before, rank, Weight(key)); }
      WithAt(before, rank, Blank(key));
    }
  }

  lemma NoneThere(key: Item)
    requires Keyed(key)
    ensures Entered([], [], key, null, 0, false, 0)
  {
  }

  class KeyTree {
    var root: Node?
    var count: nat
    var levels: nat
    ghost var view: Option<View>

    /** The nodes below the root. */
    ghost function Repr(): set<Node>
      reads this
    {
      if view.Some? then Nodes(view.value) else {}
    }

    /** The invariant: the nodes below the root are a counted, ordered tree, half full under
        the root, no node met twice, its leaves linked in order. */
    ghost predicate Valid()
      reads this, Repr()
    {
      && (root == null <==> view.None?)
      && (view.None? ==> levels == count == 0)
      && (view.Some? ==>
            var t := view.value;
            && root == t.at
            && Sound(t, levels)
            && count == |Entries(t)|)
    }

    ghost function Contents(): seq<Item>
      reads this
    {
      if view.None? then [] else Entries(view.value)
    }

    lemma InOrder()
      requires Valid()
      ensures Listed(Contents())
    {
      if root != null {
        SoundParts(view.value, levels);
        hide Keyed;
        OrderedEntries(Weight, view.value, levels, -1.0, 1.0);
        ListedWithin(Contents());
      }
    }

    /** The finite map the tree stands for. */
    ghost function Map(): map<Key, Item>
      reads this, Repr()
      requires Valid()
    {
      InOrder();
      Denoted(Contents())
    }

    /** The tree holds the `n` entries of `t`, under `top`, in the nodes as they now are. */
    method Commit(top: Node, height: nat, n: nat, ghost t: View)
      requires top == t.at && Sound(t, height) && n == |Entries(t)|
      modifies this
      ensures Valid() && Contents() == Entries(t) && Repr() == Nodes(t) && LeafCount() == |Leaves(t)|
    {
      hide Entries, Matches, ShapeUpTo, Ordered, Filled, Apart, Leaves, Searchable, LeavesInNodes, Chained;
      ghost var nodes: set<Node> := Nodes(t);
      assert forall node :: node in nodes ==> node as object != this;
      root, levels, count := top, height, n;
      assert Sound(t, levels);
      view := Some(t);
    }

    /** What the invariant gives a search of a tree that has a root. */
    lemma Known()
      requires Valid() && root != null
      ensures view.Some? && root == view.value.at && Sound(view.value, levels) && count == |Entries(view.value)|
      ensures Nodes(view.value) == Repr() && Contents() == Entries(view.value) && LeafCount() == |Leaves(view.value)|
      ensures Searchable(view.value, levels, -1.0, 1.0)
    {
    }

    constructor ()
      ensures Valid() && Contents() == []
    {
      root, count, levels, view := null, 0, 0, None;
    }

    /** The leaf and place of the key's entry, or no leaf, and the rank of the key. */
    method Find(key: Item) returns (leaf: Node?, place: nat, rank: nat)
      requires Keyed(key) && Valid()
      ensures Valid() && CountsBefore(Contents(), rank, key)
      ensures leaf != null <==> KeyOf(key) in Map()
      ensures leaf != null ==> place < |leaf.entries| && leaf.entries[place] == Map()[KeyOf(key)]
      ensures leaf != null ==> rank < |Contents()| && leaf.entries[place] == Contents()[rank]
    {
      hide *;
      if root == null {
        NoEntries(key);
        MapIs();
        InOrder();
        RankFinds(Contents(), 0, key);
        RankMeans(Contents(), 0, key);
        return null, 0, 0;
      }
      leaf, place, rank := FindKnown(key);
      InOrder();
      RankMeans(Contents(), rank, key);
    }

    method FindKnown(key: Item) returns (leaf: Node?, place: nat, rank: nat)
      requires Keyed(key) && Valid() && root != null
      ensures Valid() && IsRank(Weight, Contents(), rank, Weight(key))
      ensures leaf != null <==> KeyOf(key) in Map()
      ensures leaf != null ==> place < |leaf.entries| && leaf.entries[place] == Map()[KeyOf(key)]
      ensures leaf != null ==> rank < |Contents()| && leaf.entries[place] == Contents()[rank]
    {
      hide *;
      Known();
      InOrder();
      MapIs();
      assert allocated(Repr()) && allocated(Nodes(view.value));
      leaf, place, rank := FindIn(root, levels, key, view.value);
      RankFinds(Contents(), rank, key);
    }

    lemma NoEntries(key: Item)
      requires Valid() && root == null
      ensures IsRank(Weight, Contents(), 0, Weight(key)) && !HasAt(Weight, Contents(), 0, Weight(key))
    {
    }

    lemma MapIs()
      requires Valid()
      ensures Listed(Contents()) && Map() == Denoted(Contents())
    {
      InOrder();
    }

    /** The entry of a rank below the count. */
    method At(rank: nat) returns (leaf: Node, place: nat)
      requires Valid() && rank < |Contents()|
      ensures place < |leaf.entries| && leaf.entries[place] == Contents()[rank]
    {
      Known();
      ghost var t := view.value;
      SoundParts(t, levels);
      leaf, place := AtIn(root, levels, rank, t);
    }

    /** A walk from the first entry whose key is not before the key. */
    method Seek(key: Item) returns (cursor: Cursor, ghost rank: nat)
      requires Keyed(key) && Valid()
      ensures fresh(cursor) && cursor.Valid()
      ensures CountsBefore(Contents(), rank, key) && cursor.Rest() == Contents()[rank..]
    {
      if root == null {
        assert Contents() == [];
        cursor := new Cursor(null, 0, []);
        return cursor, 0;
      }
      hide *;
      ghost var t := view.value;
      assert allocated(Repr()) && allocated(Nodes(t));
      Known();
      InOrder();
      cursor, rank := SeekIn(root, levels, key, t);
      RankMeans(Entries(t), rank, key);
    }

    /** How many leaves there are. */
    ghost function LeafCount(): nat
      reads this
    {
      if view.Some? then |Leaves(view.value)| else 0
    }

    /** The leaves fit an address space. */
    ghost predicate Addressable()
      reads this
    {
      LeafCount() <= LEAF_LIMIT
    }

    lemma AddressableIs()
      ensures Addressable() <==> LeafCount() <= LEAF_LIMIT
    {
    }

    /** A root, when the tree has none: an empty leaf. */
    method EnsureRoot(granted: bool) returns (ok: bool)
      requires Valid()
      modifies this
      ensures granted || old(root) != null ==> ok
      ensures old(root) != null ==> root == old(root) && view == old(view) && levels == old(levels)
      ensures Valid() && Contents() == old(Contents()) && forall n :: n in Repr() && n !in old(Repr()) ==> fresh(n)
      ensures if ok then root != null else Contents() == []
      ensures LeafCount() <= if old(Contents()) == [] then old(LeafCount()) + 1 else old(LeafCount())
      ensures old(Addressable()) ==> Addressable()
    {
      if root == null {
        var leaf := Allocate(granted);
        if leaf == null {
          return false;
        }
        root := leaf;
        view := Some(EmptyView(leaf));
        EmptyLeaf(leaf);
      }
      ok := true;
    }

    /** The leaf a search for the key ends in has room for an entry more. */
    ghost predicate HasPlace(key: Item)
      reads this
    {
      view.Some? && Shape(view.value, levels) && Splits(Weight, view.value, levels, Weight(key)) == 0
    }

    /** The key's entry, made when the tree has none: a new one has the key, a zero number and no value.
        No leaf, and the tree as it was, when storage cannot be had; none is asked for where the leaf has room. */
    method Entry(key: Item, granted: bool) returns (leaf: Node?, place: nat, made: bool, ghost rank: nat)
      requires Keyed(key) && Valid() && Addressable()
      modifies this, Repr()
      ensures Valid() && forall n :: n in Repr() && n !in old(Repr()) ==> fresh(n)
      ensures Entered(old(Contents()), Contents(), key, leaf, place, made, rank)
      ensures Map() == if made then old(Map())[KeyOf(key) := key.(extra := 0, value := 0)] else old(Map())
      ensures made ==> leaf != null && leaf.entries[place] == key.(extra := 0, value := 0)
      ensures granted || old(HasPlace(key)) ==> leaf != null
      ensures leaf != null && !made <==> KeyOf(key) in old(Map())
      ensures leaf != null ==> place < |leaf.entries| && leaf.entries[place] == Map()[KeyOf(key)]
      ensures LeafCount() <= old(LeafCount()) + 1
    {
      hide *;
      MapIs();
      BlankIs(key);
      PlaceKept(key);
      ghost var before, place0 := Contents(), HasPlace(key);
      var ok := EnsureRoot(granted);
      if !ok {
        NoneThere(key);
        leaf, place, made, rank := null, 0, false, 0;
      } else {
        if place0 {
          PlaceKept(key);
        }
        leaf, place, made, rank := EntryBelow(key, granted);
      }
      EnteredDenotes(before, Contents(), key, leaf, place, made, rank);
      MapIs();
    }

    /** Whether the leaf has room is told by the tree's value alone. */
    lemma PlaceKept(key: Item)
      ensures HasPlace(key) <==>
                view.Some? && Shape(view.value, levels) && Splits(Weight, view.value, levels, Weight(key)) == 0
      ensures Valid() && HasPlace(key) ==> root != null
    {
    }

    method EntryBelow(key: Item, granted: bool) returns (leaf: Node?, place: nat, made: bool, ghost rank: nat)
      requires Keyed(key) && Valid() && Addressable() && root != null
      modifies this, Repr()
      ensures Valid() && forall n :: n in Repr() && n !in old(Repr()) ==> fresh(n)
      ensures Entered(old(Contents()), Contents(), key, leaf, place, made, rank)
      ensures LeafCount() <= old(LeafCount()) + if old(Contents()) == [] then 0 else 1
      ensures granted || old(HasPlace(key)) ==> leaf != null
    {
      hide *;
      Known();
      PlaceKept(key);
      ghost var t, w := view.value, Weight(key);
      assert allocated(Repr()) && allocated(Nodes(t));
      var found, path, at;
      ghost var views;
      leaf, place, found, path, at, views, rank := FindFrom(root, levels, key, t);
      if found {
        EnteredAs(Entries(t), Entries(t), key, leaf, place, false, rank);
        return leaf, place, false, rank;
      }
      SoundParts(t, levels);
      Known();
      assert Repr() == old(Repr());
      leaf, place, made := MakeEntry(key, leaf, place, path, at, granted, views, rank);
    }

    /** An entry for a key the tree has none of, at its place in `leaf`. */
    method MakeEntry(key: Item, end: Node, slot: nat, path: seq<Node>, at: seq<nat>, granted: bool,
                     ghost views: seq<View>, ghost rank: nat)
      returns (leaf: Node?, place: nat, made: bool)
      requires Keyed(key) && Valid() && Addressable() && root != null && |at| == levels
      requires Aimed(views, at, path, end, slot, Weight(key)) && views[0] == view.value
      requires rank == Rank(Weight, views[0], levels, Weight(key)) && IsRank(Weight, Contents(), rank, Weight(key))
      requires !Has(Weight, views[0], levels, Weight(key)) && !HasAt(Weight, Contents(), rank, Weight(key))
      modifies this, Repr()
      ensures Valid() && forall n :: n in Repr() && n !in old(Repr()) ==> fresh(n)
      ensures Entered(old(Contents()), Contents(), key, leaf, place, made, rank)
      ensures LeafCount() <= old(LeafCount()) + if old(Contents()) == [] then 0 else 1
      ensures granted || old(HasPlace(key)) ==> leaf != null
    {
      hide *;
      PlaceKept(key);
      AimedParts(views, at, path, end, slot, Weight(key));
      Known();
      FewLevels();
      ghost var t, w := views[0], Weight(key);
      assert allocated(Nodes(t));
      SoundParts(t, levels);
      var room, ok := ReserveRoom(end, slot, path, at, levels, granted, views, w);
      if !ok {
        EnteredAs(Entries(t), Entries(t), key, null, 0, false, rank);
        return null, 0, false;
      }
      var e := Blank(key);
      PathFrom(views, at, path, end, slot, e, w, room);
      var top, height, n := null, 0, count;
      ghost var r, h := t, levels;
      top, height, leaf, place, r := InsertBelow(root, end, slot, path, at, room, e, views);
      GainedParts(t, h, e, room, r, rank);
      Commit(top, height, n + 1, r);
      made := true;
      EnteredAs(Entries(t), Entries(r), key, leaf, place, true, rank);
    }

    /** The levels, and one more, stay below the levels the path arrays have room for. */
    lemma FewLevels()
      requires Valid() && Addressable() && root != null
      ensures levels + 1 < KEY_TREE_LEVELS
    {
      SoundParts(view.value, levels);
      if levels + 1 >= KEY_TREE_LEVELS {
        LevelsBound(view.value, levels);
        PowerGrows(HALF, 20, levels - 1);
        PowerTwenty();
      }
    }

    /** The entry of the key taken out, when the tree has one. */
    method Remove(key: Item) returns (ghost rank: nat)
      requires Keyed(key) && Valid()
      modifies this, Repr()
      ensures Valid() && Repr() == old(Repr())
      ensures IsRank(Weight, old(Contents()), rank, Weight(key))
      ensures Contents() == if HasAt(Weight, old(Contents()), rank, Weight(key)) then Without(old(Contents()), rank) else old(Contents())
      ensures Map() == old(Map()) - {KeyOf(key)}
      ensures LeafCount() == old(LeafCount()) && (old(Addressable()) ==> Addressable())
    {
      hide *;
      MapIs();
      AddressableIs();
      ghost var before := Contents();
      rank := 0;
      if root == null {
        NoEntries(key);
      } else {
        rank := RemoveKnown(key);
      }
      RemovalDenotes(before, rank, key, Contents());
      MapIs();
      AddressableIs();
    }

    method RemoveKnown(key: Item) returns (ghost rank: nat)
      requires Keyed(key) && Valid() && root != null
      modifies this, Repr()
      ensures Valid() && Repr() == old(Repr())
      ensures IsRank(Weight, old(Contents()), rank, Weight(key))
      ensures Contents() == if HasAt(Weight, old(Contents()), rank, Weight(key)) then Without(old(Contents()), rank) else old(Contents())
      ensures LeafCount() == old(LeafCount())
    {
      hide *;
      Known();
      ghost var t, w := view.value, Weight(key);
      assert allocated(Repr()) && allocated(Nodes(t));
      var leaf, place, found, path, at;
      ghost var views;
      leaf, place, found, path, at, views, rank := FindFrom(root, levels, key, t);
      if found {
        SoundParts(t, levels);
        ghost var r := RemoveBelow(leaf, place, path, at, views, w);
        LostParts(t, rank, r);
        Commit(root, levels, count - 1, r);
      }
    }
  }
}
