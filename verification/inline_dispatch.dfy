/** The elements each byte of inline text is offered to, in the order they are asked. */
module InlineDispatch {
  import opened Basics

  const ELEMENT_LIMIT: nat := 255
  const BYTES: nat := 256

  /** An element: whether it matches inline text, the bytes it is offered, and its precedence. */
  datatype Element = Element(matches: bool, dispatch: seq<Byte>, precedence: int)

  predicate Declares(e: Element, c: nat) {
    e.matches && c in e.dispatch
  }

  // ---------- Measuring ----------

  /** How many of the first `n` elements declare byte `c`. */
  ghost function CountFor(elements: seq<Element>, n: nat, c: nat): (k: nat)
    requires n <= |elements|
    ensures k <= n
  {
    if n == 0 then 0 else CountFor(elements, n - 1, c) + if Declares(elements[n - 1], c) then 1 else 0
  }

  /** How many entries the bytes below `c` take. */
  ghost function Sum(elements: seq<Element>, c: nat): nat
  {
    if c == 0 then 0 else Sum(elements, c - 1) + CountFor(elements, |elements|, c - 1)
  }

  lemma {:induction false} SumUp(elements: seq<Element>, b: nat, c: nat)
    requires b <= c
    ensures Sum(elements, b) <= Sum(elements, c)
    decreases c
  {
    if b < c {
      SumUp(elements, b, c - 1);
    }
  }

  /** Where each byte's entries start, and their sum: a byte declared twice by one element is declared once. */
  method CountDispatch(elements: seq<Element>) returns (offsets: array<nat>)
    ensures fresh(offsets) && offsets.Length == BYTES + 1 && forall c :: 0 <= c <= BYTES ==> offsets[c] == Sum(elements, c)
  {
    hide Sum, CountFor, Declares;
    offsets := new nat[BYTES + 1](_ => 0);
    NoneCounted(elements);
    for i := 0 to |elements|
      invariant offsets[0] == 0
      invariant forall b :: 0 < b <= BYTES ==> offsets[b] == CountFor(elements, i, b - 1)
    {
      var e := elements[i];
      var j := 0;
      while e.matches && j < |e.dispatch|
        invariant j <= |e.dispatch| && offsets[0] == 0
        invariant forall b :: 0 < b <= BYTES ==>
                    offsets[b] == CountFor(elements, i, b - 1) + if e.matches && (b - 1) in e.dispatch[..j] then 1 else 0
      {
        var c := e.dispatch[j];
        if c !in e.dispatch[..j] {
          offsets[c + 1] := offsets[c + 1] + 1;
        }
        assert e.dispatch[..j + 1] == e.dispatch[..j] + [c];
        j := j + 1;
      }
      assert e.matches ==> e.dispatch[..j] == e.dispatch;
      forall b | 0 < b <= BYTES
        ensures offsets[b] == CountFor(elements, i + 1, b - 1)
      {
        OneCounted(elements, i, b - 1);
      }
    }
    NoneBelow(elements);
    var c := 0;
    while c < BYTES
      invariant c <= BYTES && forall b: nat :: b <= c ==> offsets[b] == Sum(elements, b)
      invariant forall b :: c < b <= BYTES ==> offsets[b] == CountFor(elements, |elements|, b - 1)
    {
      SumNext(elements, c);
      offsets[c + 1] := offsets[c + 1] + offsets[c];
      c := c + 1;
    }
  }

  lemma NoneCounted(elements: seq<Element>)
    ensures forall c :: CountFor(elements, 0, c) == 0
  {
  }

  lemma OneCounted(elements: seq<Element>, i: nat, c: nat)
    requires i < |elements|
    ensures CountFor(elements, i + 1, c)
            == CountFor(elements, i, c) + if elements[i].matches && c in elements[i].dispatch then 1 else 0
  {
  }

  lemma NoneBelow(elements: seq<Element>)
    ensures Sum(elements, 0) == 0
  {
  }

  lemma SumNext(elements: seq<Element>, c: nat)
    ensures Sum(elements, c + 1) == Sum(elements, c) + CountFor(elements, |elements|, c)
  {
  }

  // ---------- The order the elements are asked in ----------

  /** Whether element `a` is asked before `b`: by precedence, and within one as they were declared. */
  ghost predicate Precedes(elements: seq<Element>, a: nat, b: nat)
    requires a < |elements| && b < |elements|
  {
    elements[a].precedence < elements[b].precedence || (elements[a].precedence == elements[b].precedence && a < b)
  }

  ghost predicate In(elements: seq<Element>, order: seq<nat>)
  {
    forall k :: 0 <= k < |order| ==> order[k] < |elements|
  }

  ghost function Insert(elements: seq<Element>, order: seq<nat>, x: nat): (r: seq<nat>)
    requires In(elements, order) && x < |elements|
    ensures In(elements, r) && |r| == |order| + 1
  {
    if order == [] || elements[order[|order| - 1]].precedence <= elements[x].precedence then order + [x]
    else Insert(elements, order[..|order| - 1], x) + [order[|order| - 1]]
  }

  /** The first `n` elements that match inline text, in that order. */
  ghost function Ordered(elements: seq<Element>, n: nat): (order: seq<nat>)
    requires n <= |elements|
    ensures In(elements, order) && |order| <= n
  {
    if n == 0 then []
    else if elements[n - 1].matches then Insert(elements, Ordered(elements, n - 1), n - 1)
    else Ordered(elements, n - 1)
  }

  ghost predicate Ascends(elements: seq<Element>, order: seq<nat>)
    requires In(elements, order)
  {
    forall j, k :: 0 <= j < k < |order| ==> Precedes(elements, order[j], order[k])
  }

  /** Element `x` is asked after all of `list`. */
  ghost predicate After(elements: seq<Element>, list: seq<nat>, x: nat)
    requires In(elements, list) && x < |elements|
  {
    forall k :: 0 <= k < |list| ==> Precedes(elements, list[k], x)
  }

  lemma AscendsOn(elements: seq<Element>, list: seq<nat>, x: nat)
    requires In(elements, list) && x < |elements| && Ascends(elements, list) && After(elements, list, x)
    ensures Ascends(elements, list + [x])
  {
  }

  lemma AscendsLess(elements: seq<Element>, list: seq<nat>)
    requires In(elements, list) && list != [] && Ascends(elements, list)
    ensures var less, last := list[..|list| - 1], list[|list| - 1];
            && In(elements, less) && last < |elements| && list == less + [last]
            && Ascends(elements, less) && After(elements, less, last)
  {
  }

  /** What is asked after a list is asked after any of its members. */
  lemma AfterSome(elements: seq<Element>, list: seq<nat>, some: seq<nat>, x: nat)
    requires In(elements, list) && In(elements, some) && x < |elements| && After(elements, list, x)
    requires forall i: nat :: i in some ==> i in list
    ensures After(elements, some, x)
  {
    forall k | 0 <= k < |some|
      ensures Precedes(elements, some[k], x)
    {
      assert some[k] in list;
    }
  }

  lemma {:induction false} InsertAscends(elements: seq<Element>, order: seq<nat>, x: nat)
    requires In(elements, order) && Ascends(elements, order) && x < |elements|
    requires forall k :: 0 <= k < |order| ==> order[k] < x
    ensures Ascends(elements, Insert(elements, order, x))
    ensures forall i: nat :: i in Insert(elements, order, x) <==> i == x || i in order
  {
    hide Insert, Ascends, After, Precedes;
    InsertStep(elements, order, x);
    if order != [] {
      AscendsLess(elements, order);
      var less, last := order[..|order| - 1], order[|order| - 1];
      if elements[last].precedence > elements[x].precedence {
        InsertAscends(elements, less, x);
        AfterInsert(elements, less, x, last);
        AscendsOn(elements, Insert(elements, less, x), last);
      } else {
        AfterLast(elements, less, last, x);
        AscendsOn(elements, order, x);
      }
    } else {
      NoneAscend(elements);
      AfterNone(elements, x);
      AscendsOn(elements, [], x);
    }
  }

  lemma AfterNone(elements: seq<Element>, x: nat)
    requires x < |elements|
    ensures After(elements, [], x)
  {
  }

  lemma AfterInsert(elements: seq<Element>, less: seq<nat>, x: nat, last: nat)
    requires In(elements, less) && x < |elements| && last < |elements| && After(elements, less, last)
    requires elements[last].precedence > elements[x].precedence
    requires forall i: nat :: i in Insert(elements, less, x) <==> i == x || i in less
    ensures After(elements, Insert(elements, less, x), last)
  {
    hide Insert;
    var put := Insert(elements, less, x);
    forall k | 0 <= k < |put|
      ensures Precedes(elements, put[k], last)
    {
      assert put[k] in put;
    }
  }

  lemma AfterLast(elements: seq<Element>, less: seq<nat>, last: nat, x: nat)
    requires In(elements, less) && last < |elements| && x < |elements| && After(elements, less, last)
    requires elements[last].precedence <= elements[x].precedence && last < x
    ensures After(elements, less + [last], x)
  {
    var all := less + [last];
    forall k | 0 <= k < |all|
      ensures Precedes(elements, all[k], x)
    {
      assert k < |less| ==> Precedes(elements, less[k], last);
    }
  }

  /** THE ORDER IS TOTAL, and holds each element that matches, once. */
  lemma {:induction false} OrderedAscends(elements: seq<Element>, n: nat)
    requires n <= |elements|
    ensures Ascends(elements, Ordered(elements, n))
    ensures forall i: nat :: i in Ordered(elements, n) <==> i < n && elements[i].matches
  {
    hide Insert, Ascends;
    if n > 0 {
      OrderedAscends(elements, n - 1);
      if elements[n - 1].matches {
        Within(Ordered(elements, n - 1), n - 1);
        InsertAscends(elements, Ordered(elements, n - 1), n - 1);
      }
    } else {
      NoneAscend(elements);
    }
  }

  lemma NoneAscend(elements: seq<Element>)
    ensures Ascends(elements, [])
  {
  }

  lemma Within(order: seq<nat>, n: nat)
    requires forall i: nat :: i in order ==> i < n
    ensures forall k :: 0 <= k < |order| ==> order[k] < n
  {
    forall k | 0 <= k < |order|
      ensures order[k] < n
    {
      assert order[k] in order;
    }
  }

  /** Those of an order that declare `c`. */
  ghost function For(elements: seq<Element>, order: seq<nat>, c: nat): (list: seq<nat>)
    requires In(elements, order)
    ensures |list| <= |order|
  {
    if order == [] then []
    else
      For(elements, order[..|order| - 1], c) + if Declares(elements[order[|order| - 1]], c) then [order[|order| - 1]] else []
  }

  lemma {:induction false} ForAll(elements: seq<Element>, order: seq<nat>, c: nat)
    requires In(elements, order) && Ascends(elements, order)
    ensures In(elements, For(elements, order, c)) && Ascends(elements, For(elements, order, c))
    ensures forall i: nat :: i in For(elements, order, c) <==> i in order && Declares(elements[i], c)
  {
    hide Ascends, After, Declares;
    if order != [] {
      var less, last := order[..|order| - 1], order[|order| - 1];
      AscendsLess(elements, order);
      ForAll(elements, less, c);
      AfterSome(elements, less, For(elements, less, c), last);
      AscendsOn(elements, For(elements, less, c), last);
      assert For(elements, less, c) + [] == For(elements, less, c);
    } else {
      NoneAscend(elements);
      assert For(elements, order, c) == [];
    }
  }

  /** What byte `c` is offered to. */
  ghost function Asked(elements: seq<Element>, c: nat): seq<nat>
  {
    For(elements, Ordered(elements, |elements|), c)
  }

  /** EACH BYTE IS OFFERED TO JUST ITS DECLARERS, stably ordered by precedence. */
  lemma AskedAll(elements: seq<Element>, c: nat)
    ensures In(elements, Asked(elements, c)) && Ascends(elements, Asked(elements, c))
    ensures forall i: nat :: i in Asked(elements, c) <==> i < |elements| && Declares(elements[i], c)
  {
    OrderedAscends(elements, |elements|);
    ForAll(elements, Ordered(elements, |elements|), c);
  }

  lemma {:induction false} InsertFor(elements: seq<Element>, order: seq<nat>, x: nat, c: nat)
    requires In(elements, order) && x < |elements|
    ensures |For(elements, Insert(elements, order, x), c)| == |For(elements, order, c)| + if Declares(elements[x], c) then 1 else 0
  {
    var r := Insert(elements, order, x);
    if order != [] && elements[order[|order| - 1]].precedence > elements[x].precedence {
      InsertFor(elements, order[..|order| - 1], x, c);
      assert r[..|r| - 1] == Insert(elements, order[..|order| - 1], x);
    } else {
      assert r[..|r| - 1] == order;
    }
  }

  /** They are as many as were measured. */
  lemma {:induction false} OrderedCount(elements: seq<Element>, n: nat, c: nat)
    requires n <= |elements|
    ensures |For(elements, Ordered(elements, n), c)| == CountFor(elements, n, c)
  {
    if n > 0 {
      OrderedCount(elements, n - 1, c);
      if elements[n - 1].matches {
        InsertFor(elements, Ordered(elements, n - 1), n - 1, c);
      }
    }
  }

  // ---------- Sealing ----------

  /** The elements that match, put in order in place: each after those of no higher precedence. */
  method OrderOwners(elements: seq<Element>) returns (owners: array<nat>, count: nat)
    requires |elements| <= ELEMENT_LIMIT
    ensures fresh(owners) && count <= owners.Length == ELEMENT_LIMIT && owners[..count] == Ordered(elements, |elements|)
  {
    hide Insert;
    owners := new nat[ELEMENT_LIMIT];
    count := 0;
    for i := 0 to |elements|
      invariant count <= i && owners[..count] == Ordered(elements, i)
    {
      if elements[i].matches {
        InsertOwner(elements, owners, count, i);
        count := count + 1;
      }
    }
  }

  method InsertOwner(elements: seq<Element>, owners: array<nat>, count: nat, x: nat)
    requires x < |elements| && count < owners.Length && In(elements, owners[..count])
    modifies owners
    ensures owners[..count + 1] == Insert(elements, old(owners[..count]), x)
  {
    hide Insert, Shifting;
    ghost var was := owners[..count];
    ShiftingStarts(elements, was, x, owners[..count + 1]);
    var at := count;
    while at > 0 && elements[owners[at - 1]].precedence > elements[x].precedence
      invariant at <= count && Shifting(elements, was, x, owners[..count + 1], at)
      invariant In(elements, owners[..at])
    {
      ShiftOne(elements, was, x, owners[..count + 1], at);
      owners[at] := owners[at - 1];
      at := at - 1;
    }
    ShiftingEnds(elements, was, x, owners[..count + 1], at);
    owners[at] := x;
  }

  /** Where an insertion stands: the owners from place `at` on moved one on, and `x` still to be put at or before it. */
  ghost predicate Shifting(elements: seq<Element>, was: seq<nat>, x: nat, owners: seq<nat>, at: nat)
  {
    && In(elements, was) && x < |elements| && at <= |was| && |owners| == |was| + 1
    && owners[..at] == was[..at] && owners[at + 1..] == was[at..]
    && Insert(elements, was[..at], x) + was[at..] == Insert(elements, was, x)
  }

  lemma ShiftingStarts(elements: seq<Element>, was: seq<nat>, x: nat, owners: seq<nat>)
    requires In(elements, was) && x < |elements| && |owners| == |was| + 1 && owners[..|was|] == was
    ensures Shifting(elements, was, x, owners, |was|)
  {
    hide Insert;
    assert was[..|was|] == was && was[|was|..] == [] == owners[|was| + 1..];
  }

  lemma ShiftOne(elements: seq<Element>, was: seq<nat>, x: nat, owners: seq<nat>, at: nat)
    requires Shifting(elements, was, x, owners, at) && at > 0 && owners[at - 1] < |elements|
    requires elements[owners[at - 1]].precedence > elements[x].precedence
    ensures Shifting(elements, was, x, owners[at := owners[at - 1]], at - 1)
  {
    hide Insert;
    assert owners[at - 1] == owners[..at][at - 1] == was[at - 1];
    InsertStep(elements, was[..at], x);
    assert was[..at][..at - 1] == was[..at - 1];
    assert was[at - 1..] == [was[at - 1]] + was[at..];
    var more := owners[at := owners[at - 1]];
    assert more[at..] == [was[at - 1]] + owners[at + 1..];
    assert more[..at - 1] == owners[..at][..at - 1];
    TailJoins(Insert(elements, was[..at - 1], x), was[at - 1], was[at..]);
  }

  lemma TailJoins(a: seq<nat>, x: nat, b: seq<nat>)
    ensures (a + [x]) + b == a + ([x] + b)
  {
  }

  lemma ShiftingEnds(elements: seq<Element>, was: seq<nat>, x: nat, owners: seq<nat>, at: nat)
    requires Shifting(elements, was, x, owners, at)
    requires at > 0 ==> owners[at - 1] < |elements| && elements[owners[at - 1]].precedence <= elements[x].precedence
    ensures owners[at := x] == Insert(elements, was, x)
  {
    hide Insert;
    assert at > 0 ==> owners[at - 1] == owners[..at][at - 1] == was[at - 1];
    InsertStep(elements, was[..at], x);
    assert owners[at := x] == owners[..at] + [x] + owners[at + 1..];
    TailJoins(was[..at], x, was[at..]);
  }

  lemma InsertStep(elements: seq<Element>, order: seq<nat>, x: nat)
    requires In(elements, order) && x < |elements|
    ensures order == [] || elements[order[|order| - 1]].precedence <= elements[x].precedence ==>
              Insert(elements, order, x) == order + [x]
    ensures order != [] && elements[order[|order| - 1]].precedence > elements[x].precedence ==>
              Insert(elements, order, x) == Insert(elements, order[..|order| - 1], x) + [order[|order| - 1]]
  {
  }

  /** What byte `c` has been offered to once the first `i` owners' declarations are put, and of the next those of `under`. */
  ghost function Put(elements: seq<Element>, order: seq<nat>, i: nat, under: set<nat>, c: nat): (list: seq<nat>)
    requires In(elements, order) && i <= |order|
  {
    For(elements, order[..i], c) + if c in under && i < |order| then [order[i]] else []
  }

  /** The entries put so far: each byte's from where it starts, the next to be put at `next`. */
  ghost predicate Filled(elements: seq<Element>, order: seq<nat>, i: nat, under: set<nat>, entries: seq<nat>, next: seq<nat>)
    requires In(elements, order) && i <= |order|
  {
    && |next| == BYTES && |entries| == Sum(elements, BYTES)
    && forall c: nat :: c < BYTES ==> FilledFor(elements, order, i, under, entries, next, c)
  }

  ghost predicate FilledFor(elements: seq<Element>, order: seq<nat>, i: nat, under: set<nat>, entries: seq<nat>, next: seq<nat>, c: nat)
    requires In(elements, order) && i <= |order| && c < |next|
  {
    var list, at := Put(elements, order, i, under, c), Sum(elements, c);
    && (c in under && i < |order| ==> Declares(elements[order[i]], c))
    && next[c] == at + |list| <= |entries|
    && entries[at..next[c]] == list
  }

  /** No more of an order's first owners declare a byte than of all. */
  lemma {:induction false} ForUp(elements: seq<Element>, order: seq<nat>, i: nat, c: nat)
    requires In(elements, order) && i < |order|
    ensures For(elements, order[..i + 1], c) == For(elements, order[..i], c) + if Declares(elements[order[i]], c) then [order[i]] else []
    ensures |For(elements, order[..i + 1], c)| <= |For(elements, order, c)|
    decreases |order| - i
  {
    assert order[..i + 1][..i] == order[..i];
    if i + 1 < |order| {
      ForUp(elements, order, i + 1, c);
    } else {
      assert order[..i + 1] == order;
    }
  }

  /** An owner put under one byte it declares: where no byte's entries are, and no further than was measured. */
  lemma PutNext(elements: seq<Element>, order: seq<nat>, i: nat, under: set<nat>, entries: seq<nat>, next: seq<nat>, c: nat)
    requires order == Ordered(elements, |elements|) && i < |order| && c < BYTES && c !in under
    requires Declares(elements[order[i]], c) && Filled(elements, order, i, under, entries, next)
    ensures next[c] < Sum(elements, c + 1) <= |entries|
    ensures Filled(elements, order, i, under + {c}, entries[next[c] := order[i]], next[c := next[c] + 1])
  {
    hide Sum, For, Ordered, CountFor, Declares;
    ForUp(elements, order, i, c);
    OrderedCount(elements, |elements|, c);
    SumNext(elements, c);
    SumUp(elements, c + 1, BYTES);
    assert FilledFor(elements, order, i, under, entries, next, c);
    var put, after, more := entries[next[c] := order[i]], next[c := next[c] + 1], under + {c};
    forall b: nat | b < BYTES
      ensures FilledFor(elements, order, i, more, put, after, b)
    {
      assert FilledFor(elements, order, i, under, entries, next, b);
      if b == c {
        assert Put(elements, order, i, more, c) == Put(elements, order, i, under, c) + [order[i]];
        assert put[Sum(elements, c)..after[c]] == entries[Sum(elements, c)..next[c]] + [order[i]];
      } else {
        assert Put(elements, order, i, more, b) == Put(elements, order, i, under, b);
        OtherBytes(elements, order, i, under, entries, next, b);
        if b < c {
          SumUp(elements, b + 1, c);
        } else {
          SumUp(elements, c + 1, b);
        }
        assert put[Sum(elements, b)..after[b]] == entries[Sum(elements, b)..next[b]];
      }
    }
  }

  lemma OtherBytes(elements: seq<Element>, order: seq<nat>, i: nat, under: set<nat>, entries: seq<nat>, next: seq<nat>, b: nat)
    requires order == Ordered(elements, |elements|) && i < |order| && b < BYTES && |next| == BYTES
    requires FilledFor(elements, order, i, under, entries, next, b) && (b in under ==> Declares(elements[order[i]], b))
    ensures next[b] <= Sum(elements, b + 1)
  {
    hide Sum, For, Ordered, CountFor, Declares;
    ForUp(elements, order, i, b);
    OrderedCount(elements, |elements|, b);
    SumNext(elements, b);
  }

  lemma NoneFilled(elements: seq<Element>, order: seq<nat>, entries: seq<nat>, next: seq<nat>)
    requires In(elements, order) && |next| == BYTES && |entries| == Sum(elements, BYTES)
    requires forall c :: 0 <= c < BYTES ==> next[c] == Sum(elements, c)
    ensures Filled(elements, order, 0, {}, entries, next)
  {
    hide Sum;
    var none: set<nat> := {};
    forall c: nat | c < BYTES
      ensures FilledFor(elements, order, 0, none, entries, next, c)
    {
      SumUp(elements, c, BYTES);
    }
  }

  /** An owner put under all its bytes is one more put. */
  lemma OwnerFilled(elements: seq<Element>, order: seq<nat>, i: nat, under: set<nat>, entries: seq<nat>, next: seq<nat>)
    requires In(elements, order) && i < |order| && Filled(elements, order, i, under, entries, next)
    requires forall c: nat :: c < BYTES ==> (c in under <==> Declares(elements[order[i]], c))
    ensures Filled(elements, order, i + 1, {}, entries, next)
  {
    hide Sum, For, Declares;
    var more, none: set<nat> := i + 1, {};
    forall c: nat | c < BYTES
      ensures FilledFor(elements, order, more, none, entries, next, c)
    {
      assert FilledFor(elements, order, i, under, entries, next, c);
      ForUp(elements, order, i, c);
    }
  }

  lemma AllFilled(elements: seq<Element>, order: seq<nat>, entries: seq<nat>, next: seq<nat>, c: nat)
    requires order == Ordered(elements, |elements|) && Filled(elements, order, |order|, {}, entries, next) && c < BYTES
    ensures Sum(elements, c) <= Sum(elements, c + 1) <= |entries|
    ensures entries[Sum(elements, c)..Sum(elements, c + 1)] == Asked(elements, c)
  {
    hide Sum, For, Ordered, CountFor;
    assert FilledFor(elements, order, |order|, {}, entries, next, c);
    assert order[..|order|] == order;
    OrderedCount(elements, |elements|, c);
    SumNext(elements, c);
    SumUp(elements, c + 1, BYTES);
  }

  /** THE LIST OF EACH BYTE, in the room that was measured. */
  method ProjectInlineDispatch(elements: seq<Element>, offsets: array<nat>) returns (entries: array<nat>)
    requires |elements| <= ELEMENT_LIMIT && offsets.Length == BYTES + 1
    requires forall c :: 0 <= c <= BYTES ==> offsets[c] == Sum(elements, c)
    ensures fresh(entries) && entries.Length == offsets[BYTES]
    ensures forall c: nat :: c < BYTES ==> ListIs(elements, offsets[..], entries[..], c)
  {
    hide Sum, Ordered, Filled, Declares, For;
    var owners, count := OrderOwners(elements);
    ghost var order := owners[..count];
    entries := new nat[offsets[BYTES]];
    var next := new nat[BYTES](c requires 0 <= c < BYTES reads offsets => offsets[c]);
    NoneFilled(elements, order, entries[..], next[..]);
    for i := 0 to count
      invariant owners[..count] == order && Filled(elements, order, i, {}, entries[..], next[..])
    {
      OrderedAscends(elements, |elements|);
      assert owners[i] == order[i] && order[i] in order;
      PutOwner(elements, order, i, owners[i], entries, next);
    }
    forall c: nat | c < BYTES
      ensures ListIs(elements, offsets[..], entries[..], c)
    {
      AllFilled(elements, order, entries[..], next[..], c);
    }
  }

  /** Between where its entries start and the next byte's do is what byte `c` is offered to. */
  ghost predicate ListIs(elements: seq<Element>, offsets: seq<nat>, entries: seq<nat>, c: nat)
  {
    && c + 1 < |offsets| && offsets[c] <= offsets[c + 1] <= |entries|
    && entries[offsets[c]..offsets[c + 1]] == Asked(elements, c)
  }

  /** What a byte is offered to: its declarers, by precedence and then as they were declared. */
  method OwnersOf(elements: seq<Element>, offsets: array<nat>, entries: array<nat>, c: Byte) returns (list: seq<nat>)
    requires ListIs(elements, offsets[..], entries[..], c)
    ensures In(elements, list) && Ascends(elements, list)
    ensures forall i: nat :: i in list <==> i < |elements| && Declares(elements[i], c)
  {
    AskedAll(elements, c);
    list := entries[offsets[c]..offsets[c + 1]];
    assert list == entries[..][offsets[c]..offsets[c + 1]];
  }

  /** An owner put on the list of each byte it declares, once. */
  method PutOwner(elements: seq<Element>, ghost order: seq<nat>, ghost i: nat, owner: nat, entries: array<nat>, next: array<nat>)
    requires order == Ordered(elements, |elements|) && i < |order| && owner == order[i] < |elements| && elements[owner].matches
    requires entries != next && Filled(elements, order, i, {}, entries[..], next[..]) && next.Length == BYTES
    modifies entries, next
    ensures Filled(elements, order, i + 1, {}, entries[..], next[..])
  {
    hide Sum, Ordered, Filled, For;
    var bytes := elements[owner].dispatch;
    ghost var under: set<nat> := {};
    for j := 0 to |bytes|
      invariant Filled(elements, order, i, under, entries[..], next[..])
      invariant forall c: nat :: c in under <==> c in bytes[..j]
    {
      var c := bytes[j];
      if c !in bytes[..j] {
        PutNext(elements, order, i, under, entries[..], next[..], c);
        FilledSize(elements, order, i, under, entries[..], next[..]);
        entries[next[c]] := owner;
        next[c] := next[c] + 1;
        under := under + {c};
      }
      assert bytes[..j + 1] == bytes[..j] + [c];
    }
    assert bytes[..|bytes|] == bytes;
    OwnerFilled(elements, order, i, under, entries[..], next[..]);
  }

  lemma FilledSize(elements: seq<Element>, order: seq<nat>, i: nat, under: set<nat>, entries: seq<nat>, next: seq<nat>)
    requires In(elements, order) && i <= |order| && Filled(elements, order, i, under, entries, next)
    ensures |entries| == Sum(elements, BYTES) && |next| == BYTES
  {
  }
}
