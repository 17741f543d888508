/** The steps asked when a kind of node is entered or left as a tree is finished, listed once for each. */
module FinishSteps {
  import opened Basics

  /** The block kinds and then the inline kinds. */
  const KINDS: nat := 2 * 0x19

  /** A key: the entry, even, or the exit, odd, of a kind, or of one past them all. */
  const KEYS: nat := 2 * (KINDS + 1)

  function EnterKey(kind: nat): nat {
    2 * kind
  }

  function ExitKey(kind: nat): nat {
    2 * kind + 1
  }

  /** An element: whether it has a step, the kinds it is asked at the exit of, those whose extent it tracks, and the
      kinds it acts on, when it declares them. */
  datatype Element = Element(steps: bool, exits: seq<nat>, scopes: seq<nat>, actsOn: Option<set<nat>>)

  /** What registration lets through: kinds there are, none both in one list and in the other. */
  ghost predicate Accepted(e: Element)
  {
    && (forall k :: 0 <= k < |e.exits| ==> e.exits[k] < KINDS && e.exits[k] !in e.scopes)
    && (forall k :: 0 <= k < |e.scopes| ==> e.scopes[k] < KINDS)
  }

  /** A step listed: its element, the state word that is its own, the kinds it acts on, and whether it is asked only
      once the parse produced one of them. */
  datatype Entry = Entry(element: nat, slot: nat, actsOn: set<nat>, gated: bool)

  /** Whether an element is asked at `key`. */
  predicate Asked(e: Element, key: nat) {
    e.steps && (key / 2 in e.scopes || (key % 2 == 1 && key / 2 in e.exits))
  }

  predicate Gated(e: Element, key: nat) {
    key / 2 in e.exits && e.actsOn.Some? && key / 2 !in e.actsOn.value
  }

  /** Whether it is asked at all. */
  predicate Projects(e: Element) {
    e.steps && (e.exits != [] || e.scopes != [])
  }

  /** The state words of the first `n` elements: one for each that is asked. */
  function Slots(elements: seq<Element>, n: nat): (slots: nat)
    requires n <= |elements|
    ensures slots <= n
  {
    if n == 0 then 0 else Slots(elements, n - 1) + if Projects(elements[n - 1]) then 1 else 0
  }

  /** ELEMENTS THAT ARE ASKED HAVE STATE WORDS OF THEIR OWN. */
  lemma {:induction false} SlotsDiffer(elements: seq<Element>, i: nat, j: nat)
    requires i < j <= |elements| && Projects(elements[i])
    ensures Slots(elements, i) < Slots(elements, j)
    decreases j
  {
    if i + 1 < j {
      SlotsDiffer(elements, i, j - 1);
    }
  }

  ghost function EntryOf(elements: seq<Element>, i: nat, key: nat): Entry
    requires i < |elements|
  {
    var e := elements[i];
    Entry(i, Slots(elements, i), if e.actsOn.Some? then e.actsOn.value else {}, Gated(e, key))
  }

  /** The steps of the first `n` elements that are asked at `key`, in their order. */
  ghost function Listed(elements: seq<Element>, n: nat, key: nat): (list: seq<Entry>)
    requires n <= |elements|
    ensures |list| <= n
  {
    if n == 0 then []
    else Listed(elements, n - 1, key) + if Asked(elements[n - 1], key) then [EntryOf(elements, n - 1, key)] else []
  }

  /** THE LIST OF A KEY is of just the elements asked there, each once, in their order, each with its own state word. */
  lemma {:induction false} ListedAll(elements: seq<Element>, n: nat, key: nat)
    requires n <= |elements|
    ensures forall e :: e in Listed(elements, n, key) <==>
              e.element < n && Asked(elements[e.element], key) && e == EntryOf(elements, e.element, key)
    ensures InOrder(Listed(elements, n, key)) && forall k :: 0 <= k < |Listed(elements, n, key)| ==> Listed(elements, n, key)[k].element < n
  {
    hide Asked, EntryOf;
    if n > 0 {
      ListedAll(elements, n - 1, key);
      EntryIs(elements, n - 1, key);
      OrderOn(Listed(elements, n - 1, key), EntryOf(elements, n - 1, key), n - 1);
    }
  }

  lemma EntryIs(elements: seq<Element>, i: nat, key: nat)
    requires i < |elements|
    ensures EntryOf(elements, i, key).element == i
  {
  }

  ghost predicate InOrder(list: seq<Entry>)
  {
    forall j, k :: 0 <= j < k < |list| ==> list[j].element < list[k].element
  }

  lemma OrderOn(list: seq<Entry>, e: Entry, n: nat)
    requires InOrder(list) && e.element == n && forall k :: 0 <= k < |list| ==> list[k].element < n
    ensures InOrder(list + [e])
  {
  }

  // ---------- Measuring ----------

  ghost function Times(s: seq<nat>, kind: nat): nat
  {
    if s == [] then 0 else Times(s[..|s| - 1], kind) + if s[|s| - 1] == kind then 1 else 0
  }

  lemma {:induction false} TimesUpOne(s: seq<nat>, kind: nat)
    requires kind in s
    ensures Times(s, kind) >= 1
  {
    if s[|s| - 1] != kind {
      assert kind in s[..|s| - 1];
      TimesUpOne(s[..|s| - 1], kind);
    }
  }

  /** How often an element declares a key: a kind written twice counts twice. */
  ghost function Declares(e: Element, key: nat): nat
  {
    if e.steps then Times(e.scopes, key / 2) + (if key % 2 == 1 then Times(e.exits, key / 2) else 0) else 0
  }

  ghost function Total(elements: seq<Element>, n: nat, key: nat): nat
    requires n <= |elements|
  {
    if n == 0 then 0 else Total(elements, n - 1, key) + Declares(elements[n - 1], key)
  }

  lemma AskedDeclares(e: Element, key: nat)
    requires Asked(e, key)
    ensures Declares(e, key) >= 1
  {
    if key / 2 in e.scopes {
      TimesUpOne(e.scopes, key / 2);
    } else {
      TimesUpOne(e.exits, key / 2);
    }
  }

  /** No more are listed than were counted. */
  lemma {:induction false} ListedWithin(elements: seq<Element>, n: nat, key: nat)
    requires n <= |elements|
    ensures |Listed(elements, n, key)| <= Total(elements, n, key)
  {
    if n > 0 {
      ListedWithin(elements, n - 1, key);
      if Asked(elements[n - 1], key) {
        AskedDeclares(elements[n - 1], key);
      }
    }
  }

  lemma {:induction false} ListedUp(elements: seq<Element>, i: nat, n: nat, key: nat)
    requires i <= n <= |elements|
    ensures |Listed(elements, i, key)| <= |Listed(elements, n, key)|
    decreases n
  {
    if i < n {
      ListedUp(elements, i, n - 1, key);
    }
  }

  /** Where a key's list starts: each declared key before it takes its count and one to end the list. */
  ghost function Start(elements: seq<Element>, key: nat): nat
  {
    if key == 0 then 0 else Start(elements, key - 1) + Taken(elements, key - 1)
  }

  ghost function Taken(elements: seq<Element>, key: nat): nat
  {
    if Total(elements, |elements|, key) == 0 then 0 else Total(elements, |elements|, key) + 1
  }

  lemma {:induction false} StartUp(elements: seq<Element>, a: nat, b: nat)
    requires a < b
    ensures Start(elements, a) + Taken(elements, a) <= Start(elements, b)
    decreases b
  {
    if a < b - 1 {
      StartUp(elements, a, b - 1);
    }
  }

  /** One more declaration of a kind counted: its exit, or its entry and exit. */
  method CountFinishKeys(elements: seq<Element>) returns (counts: array<nat>, keys: nat)
    requires forall i :: 0 <= i < |elements| ==> Accepted(elements[i])
    ensures fresh(counts) && counts.Length == KEYS && forall key :: 0 <= key < KEYS ==> counts[key] == Total(elements, |elements|, key)
    ensures keys == SumOf(counts[..])
  {
    hide Times, SumOf;
    counts, keys := new nat[KEYS](_ => 0), 0;
    NoSum(counts[..]);
    for i := 0 to |elements|
      invariant keys == SumOf(counts[..])
      invariant forall key :: 0 <= key < KEYS ==> counts[key] == Total(elements, i, key)
    {
      var more := CountElement(elements[i], counts);
      keys := keys + more;
    }
  }

  method CountElement(e: Element, counts: array<nat>) returns (keys: nat)
    requires Accepted(e) && counts.Length == KEYS
    modifies counts
    ensures forall key :: 0 <= key < KEYS ==> counts[key] == old(counts[key]) + Declares(e, key)
    ensures SumOf(counts[..]) == old(SumOf(counts[..])) + keys
  {
    hide Times, SumOf;
    keys := 0;
    if !e.steps {
      return;
    }
    NoTimes();
    var exits, scopes := e.exits, e.scopes;
    for k := 0 to |exits|
      invariant SumOf(counts[..]) == old(SumOf(counts[..])) + keys
      invariant forall key :: 0 <= key < KEYS ==>
                  counts[key] == old(counts[key]) + if key % 2 == 1 then Times(exits[..k], key / 2) else 0
    {
      TimesOn(exits, k);
      CountOne(counts, ExitKey(exits[k]));
      keys := keys + 1;
    }
    assert exits[..|exits|] == exits;
    for k := 0 to |scopes|
      invariant SumOf(counts[..]) == old(SumOf(counts[..])) + keys
      invariant forall key :: 0 <= key < KEYS ==>
                  counts[key] == old(counts[key]) + (if key % 2 == 1 then Times(exits, key / 2) else 0) + Times(scopes[..k], key / 2)
    {
      TimesOn(scopes, k);
      CountOne(counts, EnterKey(scopes[k]));
      CountOne(counts, ExitKey(scopes[k]));
      keys := keys + 2;
    }
    assert scopes[..|scopes|] == scopes;
  }

  method CountOne(counts: array<nat>, key: nat)
    requires key < counts.Length
    modifies counts
    ensures counts[..] == old(counts[..])[key := old(counts[key]) + 1] && SumOf(counts[..]) == old(SumOf(counts[..])) + 1
  {
    SumPut(counts[..], key, counts[key] + 1);
    counts[key] := counts[key] + 1;
  }

  ghost function SumOf(s: seq<nat>): nat
  {
    if s == [] then 0 else SumOf(s[..|s| - 1]) + s[|s| - 1]
  }

  lemma {:induction false} SumPut(s: seq<nat>, k: nat, x: nat)
    requires k < |s|
    ensures SumOf(s[k := x]) == SumOf(s) - s[k] + x
  {
    var put := s[k := x];
    if k < |s| - 1 {
      SumPut(s[..|s| - 1], k, x);
      assert put[..|s| - 1] == s[..|s| - 1][k := x];
    } else {
      assert put[..|s| - 1] == s[..|s| - 1];
    }
  }

  lemma {:induction false} NoSum(s: seq<nat>)
    requires forall k :: 0 <= k < |s| ==> s[k] == 0
    ensures SumOf(s) == 0
  {
    if s != [] {
      NoSum(s[..|s| - 1]);
    }
  }

  /** How many of the first `n` keys are declared. */
  ghost function Declared(counts: seq<nat>, n: nat): nat
    requires n <= |counts|
  {
    if n == 0 then 0 else Declared(counts, n - 1) + if counts[n - 1] != 0 then 1 else 0
  }

  /** THE ROOM MEASURED is what the lists take: each declaration counted, and the end of each list. */
  lemma {:induction false} Measured(elements: seq<Element>, counts: seq<nat>, n: nat)
    requires n <= |counts| && forall key :: 0 <= key < |counts| ==> counts[key] == Total(elements, |elements|, key)
    ensures Start(elements, n) == SumOf(counts[..n]) + Declared(counts, n)
  {
    if n > 0 {
      Measured(elements, counts, n - 1);
      assert counts[..n][..n - 1] == counts[..n - 1];
    }
  }

  /** The room the steps take. */
  method MeasureSteps(elements: seq<Element>, counts: array<nat>, keys: nat) returns (steps: nat)
    requires counts.Length == KEYS && forall key :: 0 <= key < KEYS ==> counts[key] == Total(elements, |elements|, key)
    requires keys == SumOf(counts[..])
    ensures steps == Start(elements, KEYS)
  {
    hide Total, Start, SumOf;
    steps := keys;
    for key := 0 to KEYS
      invariant steps == keys + Declared(counts[..], key)
    {
      if counts[key] != 0 {
        steps := steps + 1;
      }
    }
    Measured(elements, counts[..], KEYS);
    assert counts[..][..KEYS] == counts[..];
  }

  lemma NoTimes()
    ensures forall kind :: Times([], kind) == 0
  {
  }

  lemma TimesOn(s: seq<nat>, k: nat)
    requires k < |s|
    ensures forall kind :: Times(s[..k + 1], kind) == Times(s[..k], kind) + if s[k] == kind then 1 else 0
  {
    assert s[..k + 1][..k] == s[..k];
  }

  /** No element is asked past the kinds there are. */
  lemma {:induction false} NonePast(elements: seq<Element>, n: nat, key: nat)
    requires n <= |elements| && key >= 2 * KINDS && forall i :: 0 <= i < |elements| ==> Accepted(elements[i])
    ensures Total(elements, n, key) == 0 && Listed(elements, n, key) == []
  {
    if n > 0 {
      NonePast(elements, n - 1, key);
      var e := elements[n - 1];
      NoneIn(e.exits, key / 2);
      NoneIn(e.scopes, key / 2);
    }
  }

  lemma {:induction false} NoneIn(s: seq<nat>, kind: nat)
    requires forall k :: 0 <= k < |s| ==> s[k] < kind
    ensures Times(s, kind) == 0 && kind !in s
  {
    if s != [] {
      NoneIn(s[..|s| - 1], kind);
    }
  }

  // ---------- Sealing ----------

  /** What key `key` lists once the first `i` elements are put, and of the next what is put under the keys `under`. */
  ghost function Put(elements: seq<Element>, i: nat, under: set<nat>, key: nat): (list: seq<Entry>)
    requires i <= |elements|
  {
    Listed(elements, i, key) + if key in under && i < |elements| then [EntryOf(elements, i, key)] else []
  }

  /** The steps put so far: each key's from where it starts, the next at `next`. */
  ghost predicate Filled(elements: seq<Element>, i: nat, under: set<nat>, steps: seq<Option<Entry>>, next: seq<nat>)
    requires i <= |elements|
  {
    && |next| == KEYS && |steps| == Start(elements, KEYS)
    && forall key: nat :: key < KEYS ==> FilledFor(elements, i, under, steps, next, key)
  }

  ghost predicate FilledFor(elements: seq<Element>, i: nat, under: set<nat>, steps: seq<Option<Entry>>, next: seq<nat>, key: nat)
    requires i <= |elements| && key < |next|
  {
    && (key in under ==> i < |elements| && Asked(elements[i], key))
    && (Taken(elements, key) > 0 ==> ListIs(steps, Start(elements, key), next[key], Put(elements, i, under, key)))
  }

  /** The steps from `at` to `end` are those of `list`. */
  ghost predicate ListIs(steps: seq<Option<Entry>>, at: nat, end: nat, list: seq<Entry>)
  {
    && end == at + |list| <= |steps|
    && forall k :: 0 <= k < |list| ==> steps[at + k] == Some(list[k])
  }

  /** A key that is asked of an element took room, for the element too and for the end of its list. */
  lemma RoomFor(elements: seq<Element>, i: nat, key: nat)
    requires i < |elements| && key < KEYS && Asked(elements[i], key)
    ensures Taken(elements, key) > |Listed(elements, i, key)| + 1
    ensures Start(elements, key) + Taken(elements, key) <= Start(elements, KEYS)
  {
    hide Start, Asked;
    ListedUp(elements, i + 1, |elements|, key);
    ListedWithin(elements, |elements|, key);
    StartUp(elements, key, KEYS);
  }

  /** A step put under one key more: where no key's steps are, and no further than was measured. */
  lemma PutNext(elements: seq<Element>, i: nat, under: set<nat>, steps: seq<Option<Entry>>, next: seq<nat>, key: nat)
    requires i < |elements| && key < KEYS && key !in under && Asked(elements[i], key) && Filled(elements, i, under, steps, next)
    ensures next[key] + 1 < Start(elements, key) + Taken(elements, key) <= |steps|
    ensures Filled(elements, i, under + {key}, steps[next[key] := Some(EntryOf(elements, i, key))], next[key := next[key] + 1])
  {
    hide Start, Taken, Listed, Asked, EntryOf, KEYS;
    RoomFor(elements, i, key);
    assert FilledFor(elements, i, under, steps, next, key);
    var put, after, more := steps[next[key] := Some(EntryOf(elements, i, key))], next[key := next[key] + 1], under + {key};
    forall other: nat | other < KEYS
      ensures FilledFor(elements, i, more, put, after, other)
    {
      assert FilledFor(elements, i, under, steps, next, other);
      if other == key {
        ListGrows(steps, Start(elements, key), next[key], Put(elements, i, under, key), EntryOf(elements, i, key));
        assert Put(elements, i, more, key) == Put(elements, i, under, key) + [EntryOf(elements, i, key)];
      } else {
        assert Put(elements, i, more, other) == Put(elements, i, under, other);
        OtherKey(elements, i, under, steps, next, key, other, Some(EntryOf(elements, i, key)));
      }
    }
  }

  lemma ListGrows(steps: seq<Option<Entry>>, at: nat, end: nat, list: seq<Entry>, e: Entry)
    requires ListIs(steps, at, end, list) && end < |steps|
    ensures ListIs(steps[end := Some(e)], at, end + 1, list + [e])
  {
  }

  /** A step put elsewhere leaves a list as it was. */
  lemma OtherKey(elements: seq<Element>, i: nat, under: set<nat>, steps: seq<Option<Entry>>, next: seq<nat>, key: nat, other: nat, e: Option<Entry>)
    requires i < |elements| && key < KEYS && other < KEYS && key != other && |next| == KEYS
    requires FilledFor(elements, i, under, steps, next, other)
    requires Start(elements, key) <= next[key] < Start(elements, key) + Taken(elements, key) && next[key] < |steps|
    ensures Taken(elements, other) > 0 ==>
              ListIs(steps[next[key] := e], Start(elements, other), next[other], Put(elements, i, under, other))
  {
    hide Start, Taken, Listed, Asked, EntryOf, KEYS;
    if key < other {
      StartUp(elements, key, other);
    } else {
      StartUp(elements, other, key);
      PutWithin(elements, i, under, other);
    }
  }

  lemma PutWithin(elements: seq<Element>, i: nat, under: set<nat>, key: nat)
    requires i < |elements| && (key in under ==> Asked(elements[i], key))
    ensures Taken(elements, key) > 0 ==> |Put(elements, i, under, key)| < Taken(elements, key)
  {
    hide Asked, EntryOf;
    if key in under {
      ListedUp(elements, i + 1, |elements|, key);
    } else {
      ListedUp(elements, i, |elements|, key);
    }
    ListedWithin(elements, |elements|, key);
  }

  /** An element put under all its keys is one more put. */
  lemma ElementFilled(elements: seq<Element>, i: nat, under: set<nat>, steps: seq<Option<Entry>>, next: seq<nat>)
    requires i < |elements| && Filled(elements, i, under, steps, next)
    requires forall key: nat :: key < KEYS ==> (key in under <==> Asked(elements[i], key))
    ensures Filled(elements, i + 1, {}, steps, next)
  {
    hide Start, Taken, Asked, EntryOf, KEYS;
    var more, none: set<nat> := i + 1, {};
    forall key: nat | key < KEYS
      ensures FilledFor(elements, more, none, steps, next, key)
    {
      assert FilledFor(elements, i, under, steps, next, key);
      assert Put(elements, more, none, key) == Put(elements, i, under, key);
    }
  }

  lemma NoneFilled(elements: seq<Element>, steps: seq<Option<Entry>>, next: seq<nat>)
    requires |next| == KEYS && |steps| == Start(elements, KEYS)
    requires forall key :: 0 <= key < KEYS && Taken(elements, key) > 0 ==> next[key] == Start(elements, key)
    ensures Filled(elements, 0, {}, steps, next)
  {
    hide Start, Taken, KEYS;
    var none: set<nat> := {};
    forall key: nat | key < KEYS
      ensures FilledFor(elements, 0, none, steps, next, key)
    {
      StartUp(elements, key, KEYS);
    }
  }

  /** The last step put under a key is the element's exactly when it was put there. */
  lemma LastPut(elements: seq<Element>, i: nat, under: set<nat>, steps: seq<Option<Entry>>, next: seq<nat>, key: nat)
    requires i < |elements| && key < KEYS && Filled(elements, i, under, steps, next) && Asked(elements[i], key)
    ensures Start(elements, key) <= next[key] < |steps|
    ensures next[key] > Start(elements, key) ==> steps[next[key] - 1].Some?
    ensures next[key] > Start(elements, key) && steps[next[key] - 1].value.element == i <==> key in under
  {
    hide Start, Taken, Asked, KEYS;
    RoomFor(elements, i, key);
    assert FilledFor(elements, i, under, steps, next, key);
    var at, list := Start(elements, key), Put(elements, i, under, key);
    if |list| > 0 {
      assert steps[at + (|list| - 1)] == Some(list[|list| - 1]);
      if key !in under {
        ListedAll(elements, i, key);
      }
    }
  }

  /** A step put under `key`, once. */
  method AppendFinishStep(ghost elements: seq<Element>, i: nat, ghost under: set<nat>, steps: array<Option<Entry>>,
                          next: array<nat>, start: nat, key: nat, e: Entry)
    requires i < |elements| && key < KEYS && Filled(elements, i, under, steps[..], next[..]) && Asked(elements[i], key)
    requires e == EntryOf(elements, i, key) && e.element == i && start == Start(elements, key) && next.Length == KEYS
    modifies steps, next
    ensures Filled(elements, i, under + {key}, steps[..], next[..])
  {
    hide *;
    LastPut(elements, i, under, steps[..], next[..], key);
    if next[key] != start && steps[next[key] - 1].value.element == i {
      assert under + {key} == under;
      return;
    }
    PutNext(elements, i, under, steps[..], next[..], key);
    ghost var put, after := steps[..][next[key] := Some(e)], next[..][key := next[key] + 1];
    steps[next[key]] := Some(e);
    next[key] := next[key] + 1;
    assert steps[..] == put && next[..] == after;
  }

  /** An element's step put under each key it is asked at, once. */
  method PutElement(elements: seq<Element>, i: nat, slot: nat, steps: array<Option<Entry>>, next: array<nat>, starts: array<nat>)
    requires i < |elements| && Accepted(elements[i]) && slot == Slots(elements, i)
    requires next.Length == KEYS == starts.Length && starts != next && forall key :: 0 <= key < KEYS ==> starts[key] == Start(elements, key)
    requires Filled(elements, i, {}, steps[..], next[..])
    modifies steps, next
    ensures Filled(elements, i + 1, {}, steps[..], next[..])
  {
    hide Start, Slots, Filled, Gated, Asked, EntryOf;
    ghost var under: set<nat> := {};
    var e := elements[i];
    if e.steps {
      var actsOn := if e.actsOn.Some? then e.actsOn.value else {};
      for k := 0 to |e.exits|
        invariant Filled(elements, i, under, steps[..], next[..])
        invariant forall key: nat :: key in under <==> key % 2 == 1 && key / 2 in e.exits[..k]
      {
        var kind := e.exits[k];
        var gated := e.actsOn.Some? && kind !in actsOn;
        ExitEntry(elements, i, kind);
        AppendFinishStep(elements, i, under, steps, next, starts[ExitKey(kind)], ExitKey(kind), Entry(i, slot, actsOn, gated));
        under := under + {ExitKey(kind)};
        assert e.exits[..k + 1] == e.exits[..k] + [kind];
      }
      assert e.exits[..|e.exits|] == e.exits;
      for k := 0 to |e.scopes|
        invariant Filled(elements, i, under, steps[..], next[..])
        invariant forall key: nat :: key in under <==> (key % 2 == 1 && key / 2 in e.exits) || key / 2 in e.scopes[..k]
      {
        var kind := e.scopes[k];
        ScopeEntry(elements, i, kind);
        AppendFinishStep(elements, i, under, steps, next, starts[EnterKey(kind)], EnterKey(kind), Entry(i, slot, actsOn, false));
        AppendFinishStep(elements, i, under + {EnterKey(kind)}, steps, next, starts[ExitKey(kind)], ExitKey(kind), Entry(i, slot, actsOn, false));
        under := under + {EnterKey(kind)} + {ExitKey(kind)};
        assert e.scopes[..k + 1] == e.scopes[..k] + [kind];
      }
      assert e.scopes[..|e.scopes|] == e.scopes;
    }
    forall key: nat | key < KEYS
      ensures key in under <==> Asked(elements[i], key)
    {
      AskedIs(elements[i], key);
    }
    ElementFilled(elements, i, under, steps[..], next[..]);
  }

  lemma AskedIs(e: Element, key: nat)
    ensures Asked(e, key) <==> e.steps && (key / 2 in e.scopes || (key % 2 == 1 && key / 2 in e.exits))
  {
  }

  lemma ExitEntry(elements: seq<Element>, i: nat, kind: nat)
    requires i < |elements| && elements[i].steps && kind in elements[i].exits
    ensures var e := elements[i];
            && Asked(e, ExitKey(kind))
            && EntryOf(elements, i, ExitKey(kind))
               == Entry(i, Slots(elements, i), if e.actsOn.Some? then e.actsOn.value else {}, e.actsOn.Some? && kind !in e.actsOn.value)
  {
  }

  lemma ScopeEntry(elements: seq<Element>, i: nat, kind: nat)
    requires i < |elements| && elements[i].steps && kind in elements[i].scopes && Accepted(elements[i])
    ensures kind < KINDS
    ensures forall key :: key == EnterKey(kind) || key == ExitKey(kind) ==>
              && Asked(elements[i], key)
              && EntryOf(elements, i, key)
                 == Entry(i, Slots(elements, i), if elements[i].actsOn.Some? then elements[i].actsOn.value else {}, false)
  {
    assert forall k :: 0 <= k < |elements[i].exits| ==> elements[i].exits[k] != kind;
  }

  /** What a key lists: nothing and no list when no element is asked there, and else a list from `start` to its end. */
  ghost predicate Sealed(elements: seq<Element>, steps: seq<Option<Entry>>, start: Option<nat>, key: nat)
  {
    var list := Listed(elements, |elements|, key);
    match start
    case None => list == []
    case Some(at) => at + |list| < |steps| && ListIs(steps, at, at + |list|, list) && steps[at + |list|] == None
  }

  /** Where each key's list starts. */
  method Layout(elements: seq<Element>, counts: array<nat>) returns (starts: array<nat>)
    requires counts.Length == KEYS && forall key :: 0 <= key < KEYS ==> counts[key] == Total(elements, |elements|, key)
    ensures fresh(starts) && starts.Length == KEYS && forall key :: 0 <= key < KEYS ==> starts[key] == Start(elements, key)
  {
    hide Total;
    starts := new nat[KEYS];
    var at := 0;
    for key := 0 to KEYS
      invariant at == Start(elements, key) && forall k :: 0 <= k < key ==> starts[k] == Start(elements, k)
    {
      starts[key] := at;
      if counts[key] != 0 {
        at := at + counts[key] + 1;
      }
    }
  }

  /** THE FINISH STEPS BY KEY, in the room that was measured, and how many state words they have. */
  method ProjectFinishSteps(elements: seq<Element>, counts: array<nat>, room: nat)
    returns (steps: array<Option<Entry>>, dispatch: seq<Option<nat>>, slots: nat)
    requires forall i :: 0 <= i < |elements| ==> Accepted(elements[i])
    requires counts.Length == KEYS && forall key :: 0 <= key < KEYS ==> counts[key] == Total(elements, |elements|, key)
    requires room == Start(elements, KEYS)
    ensures fresh(steps) && steps.Length == room && slots == Slots(elements, |elements|) && |dispatch| == KEYS
    ensures forall key: nat :: key < KEYS ==> Sealed(elements, steps[..], dispatch[key], key)
  {
    hide Start, Slots, Filled, Listed, Total, Accepted, Sealed, Taken;
    var starts := Layout(elements, counts);
    steps := new Option<Entry>[room](_ => None);
    var next := new nat[KEYS](k requires 0 <= k < KEYS && starts.Length == KEYS reads starts => starts[k]);
    NoneFilled(elements, steps[..], next[..]);
    NoSlots(elements);
    slots := 0;
    for i := 0 to |elements|
      invariant Filled(elements, i, {}, steps[..], next[..]) && slots == Slots(elements, i)
      invariant forall key :: 0 <= key < KEYS ==> starts[key] == Start(elements, key)
    {
      PutElement(elements, i, slots, steps, next, starts);
      OneSlot(elements, i);
      if elements[i].steps && (elements[i].exits != [] || elements[i].scopes != []) {
        slots := slots + 1;
      }
    }
    dispatch := [];
    ghost var filled := steps[..];
    for key := 0 to KEYS
      invariant |dispatch| == key && Filled(elements, |elements|, {}, filled, next[..]) && steps.Length == |filled|
      invariant Ended(elements, filled, steps[..], next[..], key)
      invariant forall k :: 0 <= k < KEYS ==> starts[k] == Start(elements, k)
      invariant forall k: nat :: k < key ==> dispatch[k] == if counts[k] == 0 then None else Some(starts[k])
    {
      EndNext(elements, filled, steps[..], next[..], key);
      if counts[key] != 0 {
        steps[next[key]] := None;
      }
      dispatch := dispatch + [if counts[key] == 0 then None else Some(starts[key])];
    }
    forall key: nat | key < KEYS
      ensures Sealed(elements, steps[..], dispatch[key], key)
    {
      AllEnded(elements, filled, steps[..], next[..], key);
    }
  }

  lemma NoSlots(elements: seq<Element>)
    ensures Slots(elements, 0) == 0
  {
  }

  lemma OneSlot(elements: seq<Element>, i: nat)
    requires i < |elements|
    ensures Slots(elements, i + 1)
            == Slots(elements, i) + if elements[i].steps && (elements[i].exits != [] || elements[i].scopes != []) then 1 else 0
  {
  }

  /** The steps put, with the end of each of the first `n` keys' lists. */
  ghost predicate Ended(elements: seq<Element>, filled: seq<Option<Entry>>, steps: seq<Option<Entry>>, next: seq<nat>, n: nat)
  {
    && |steps| == |filled| && |next| == KEYS && n <= KEYS
    && (forall at: nat :: at < |steps| ==> steps[at] == filled[at] || IsEnd(elements, next, n, at))
    && (forall key: nat :: key < n ==> EndsAt(elements, steps, next, key))
  }

  /** `at` is where one of the first `n` keys' lists ends. */
  ghost predicate IsEnd(elements: seq<Element>, next: seq<nat>, n: nat, at: nat)
  {
    exists key: nat :: key < n && EndIs(elements, next, key, at)
  }

  ghost predicate EndIs(elements: seq<Element>, next: seq<nat>, key: nat, at: nat)
  {
    key < |next| && Taken(elements, key) > 0 && next[key] == at
  }

  ghost predicate EndsAt(elements: seq<Element>, steps: seq<Option<Entry>>, next: seq<nat>, key: nat)
    requires key < |next|
  {
    Taken(elements, key) > 0 ==> next[key] < |steps| && steps[next[key]] == None
  }

  /** A list's end is in its key's room, past its steps. */
  lemma EndWithin(elements: seq<Element>, filled: seq<Option<Entry>>, next: seq<nat>, key: nat)
    requires Filled(elements, |elements|, {}, filled, next) && key < KEYS && Taken(elements, key) > 0
    ensures next[key] == Start(elements, key) + |Listed(elements, |elements|, key)| < Start(elements, key) + Taken(elements, key) <= |filled|
    ensures ListIs(filled, Start(elements, key), next[key], Listed(elements, |elements|, key))
  {
    hide Start, Listed, KEYS;
    assert FilledFor(elements, |elements|, {}, filled, next, key);
    assert Put(elements, |elements|, {}, key) == Listed(elements, |elements|, key);
    ListedWithin(elements, |elements|, key);
    StartUp(elements, key, KEYS);
  }

  lemma EndNext(elements: seq<Element>, filled: seq<Option<Entry>>, steps: seq<Option<Entry>>, next: seq<nat>, key: nat)
    requires Filled(elements, |elements|, {}, filled, next) && Ended(elements, filled, steps, next, key) && key < KEYS
    ensures Taken(elements, key) == 0 <==> Total(elements, |elements|, key) == 0
    ensures Taken(elements, key) == 0 ==> Ended(elements, filled, steps, next, key + 1)
    ensures Taken(elements, key) > 0 ==> next[key] < |steps| && Ended(elements, filled, steps[next[key] := None], next, key + 1)
  {
    hide Start, Listed, Filled, KEYS, Total;
    TakenIs(elements, key);
    var more := if Taken(elements, key) > 0 && next[key] < |steps| then steps[next[key] := None] else steps;
    if Taken(elements, key) > 0 {
      EndWithin(elements, filled, next, key);
    }
    var n := key + 1;
    forall at: nat | at < |more|
      ensures more[at] == filled[at] || IsEnd(elements, next, n, at)
    {
      if more[at] != filled[at] {
        if steps[at] != filled[at] {
          var k: nat :| k < key && EndIs(elements, next, k, at);
          assert EndIs(elements, next, k, at);
        } else {
          assert EndIs(elements, next, key, at);
        }
      }
    }
    forall k: nat | k < n
      ensures EndsAt(elements, more, next, k)
    {
      assert k < key ==> EndsAt(elements, steps, next, k);
    }
  }

  lemma TakenIs(elements: seq<Element>, key: nat)
    ensures Taken(elements, key) == 0 <==> Total(elements, |elements|, key) == 0
  {
  }

  lemma AllEnded(elements: seq<Element>, filled: seq<Option<Entry>>, steps: seq<Option<Entry>>, next: seq<nat>, key: nat)
    requires Filled(elements, |elements|, {}, filled, next) && Ended(elements, filled, steps, next, KEYS) && key < KEYS
    ensures Sealed(elements, steps, if Total(elements, |elements|, key) == 0 then None else Some(Start(elements, key)), key)
  {
    hide Start, Filled, KEYS, Total, Listed;
    TakenIs(elements, key);
    ListedWithin(elements, |elements|, key);
    if Taken(elements, key) > 0 {
      EndWithin(elements, filled, next, key);
      assert EndsAt(elements, steps, next, key);
      var list, at := Listed(elements, |elements|, key), Start(elements, key);
      forall k | 0 <= k < |list|
        ensures steps[at + k] == Some(list[k])
      {
        if steps[at + k] != filled[at + k] {
          var other: nat :| other < KEYS && EndIs(elements, next, other, at + k);
          EndWithin(elements, filled, next, other);
          if other < key {
            StartUp(elements, other, key);
          } else if key < other {
            StartUp(elements, key, other);
          }
        }
      }
    }
  }

  /** The steps asked at a key, read to the end of their list: just those of the elements asked there, in their order. */
  method StepsAt(elements: seq<Element>, steps: array<Option<Entry>>, start: Option<nat>, key: nat) returns (list: seq<Entry>)
    requires Sealed(elements, steps[..], start, key)
    ensures list == Listed(elements, |elements|, key) && InOrder(list)
    ensures forall e :: e in list <==>
              e.element < |elements| && Asked(elements[e.element], key) && e == EntryOf(elements, e.element, key)
  {
    hide Listed, Asked, EntryOf;
    ghost var all := Listed(elements, |elements|, key);
    ListedAll(elements, |elements|, key);
    list := [];
    if start.Some? {
      var at := start.value;
      while steps[at].Some?
        invariant at == start.value + |list| && |list| <= |all| && list == all[..|list|] && at < steps.Length
        decreases |all| - |list|
      {
        ListAt(steps[..], start.value, start.value + |all|, all, |list|);
        list := list + [steps[at].value];
        at := at + 1;
      }
      ListAt(steps[..], start.value, start.value + |all|, all, |list|);
    }
  }

  lemma ListAt(steps: seq<Option<Entry>>, at: nat, end: nat, list: seq<Entry>, k: nat)
    requires ListIs(steps, at, end, list) && k <= |list| && end < |steps| && steps[end] == None
    ensures if k < |list| then steps[at + k] == Some(list[k]) else steps[at + k] == None
  {
  }
}
