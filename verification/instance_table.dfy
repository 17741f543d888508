/** The instances of a dialect, found by their descriptors. */
module InstanceTable {
  import opened Basics
  import opened KeyOrder
  import opened HashTable

  const ELEMENT_LIMIT: nat := 255

  /** The bits of a table of twice as many entries as elements at least, and of two. */
  method InstanceBits(count: nat) returns (bits: nat, size: nat)
    ensures bits >= 1 && size == Exp2(bits) && size >= 2 * count && size >= 2
    ensures bits > 1 ==> Exp2(bits - 1) < 2 * count
  {
    bits, size := 1, 2;
    while size < 2 * count
      invariant bits >= 1 && size == Exp2(bits) && size >= 2
      invariant bits > 1 ==> Exp2(bits - 1) < 2 * count
      decreases 2 * count - size
    {
      bits, size := bits + 1, 2 * size;
    }
  }

  ghost function Exp2(n: nat): nat
  {
    if n == 0 then 1 else 2 * Exp2(n - 1)
  }

  /** The entry of element `i`, whose descriptor is at the address of bytes `elements[i]`. */
  function Entry(elements: seq<Key>, hash: Hash, i: nat): Slot
    requires i < |elements|
  {
    Slot(hash(elements[i]), Some(elements[i]), |elements[i]|, 0, i)
  }

  /** The table holds the first `n` elements' instances, each under its descriptor, and nothing else. */
  ghost predicate HoldsFirst(elements: seq<Key>, hash: Hash, n: nat, table: seq<Slot>)
    requires n <= |elements|
  {
    && Table(hash, table) && Count(table) == n
    && (forall key: Key :: key in Held(table) <==> key in elements[..n])
    && (forall i: nat :: i < n ==> InTable(elements, hash, table, i))
  }

  ghost predicate InTable(elements: seq<Key>, hash: Hash, table: seq<Slot>, i: nat)
    requires i < |elements| && Distinct(table)
  {
    elements[i] in Held(table) && Held(table)[elements[i]] == Entry(elements, hash, i)
  }

  /** Each element's instance entered under its descriptor, in a table at most half full: a place is always found. */
  method ProjectInstances(elements: seq<Key>, ghost hash: Hash, hashes: seq<nat>) returns (table: array<Slot>)
    requires |elements| <= ELEMENT_LIMIT && Unlike(elements)
    requires |hashes| == |elements| && forall i :: 0 <= i < |elements| ==> hashes[i] == hash(elements[i])
    ensures fresh(table) && table.Length > 0 && 2 * |elements| <= table.Length
    ensures HoldsFirst(elements, hash, |elements|, table[..])
  {
    hide HoldsFirst, Table, Count;
    var _, size := InstanceBits(|elements|);
    table := new Slot[size](_ => VACANT);
    NoneHeld(elements, hash, table[..]);
    for i := 0 to |elements|
      invariant HoldsFirst(elements, hash, i, table[..])
    {
      HeldParts(elements, hash, i, table[..]);
      var at := FindPlace(table, elements[i], hashes[i], hash);
      OneMore(elements, hash, i, table[..], at);
      table[at] := Slot(hashes[i], Some(elements[i]), |elements[i]|, 0, i);
    }
  }

  /** No descriptor is registered twice. */
  ghost predicate Unlike(elements: seq<Key>)
  {
    forall i, j :: 0 <= i < j < |elements| ==> elements[i] != elements[j]
  }

  lemma NoneHeld(elements: seq<Key>, hash: Hash, table: seq<Slot>)
    requires forall i :: 0 <= i < |table| ==> table[i] == VACANT
    ensures HoldsFirst(elements, hash, 0, table)
  {
    CountFull(table);
  }

  lemma HeldParts(elements: seq<Key>, hash: Hash, n: nat, table: seq<Slot>)
    requires n <= |elements| && HoldsFirst(elements, hash, n, table)
    ensures Table(hash, table) && Count(table) == n
  {
  }

  lemma OneMore(elements: seq<Key>, hash: Hash, n: nat, table: seq<Slot>, at: nat)
    requires Unlike(elements) && n < |elements| && HoldsFirst(elements, hash, n, table) && at < |table|
    requires Ends(hash, table, elements[n], at)
    ensures !Live(table[at])
    ensures HoldsFirst(elements, hash, n + 1, table[at := Entry(elements, hash, n)])
  {
    hide Held, Count;
    EndsFinds(hash, table, elements[n], at);
    assert elements[n] !in elements[..n];
    var x := Entry(elements, hash, n);
    Fill(hash, table, at, x);
    var more, next := table[at := x], n + 1;
    assert elements[..next] == elements[..n] + [elements[n]];
    forall i: nat | i < next
      ensures InTable(elements, hash, more, i)
    {
      if i < n {
        assert InTable(elements, hash, table, i);
      }
    }
  }

  /** The place a probe for a descriptor ends at: its own, or the first that is vacant. */
  method FindPlace(table: array<Slot>, key: Key, h: nat, ghost hash: Hash) returns (at: nat)
    requires table.Length > 0 && h == hash(key) && Table(hash, table[..]) && Count(table[..]) < table.Length
    ensures at < table.Length && Ends(hash, table[..], key, at)
  {
    hide Table, Count;
    var size := table.Length;
    ghost var vacant := VacantSlot(table[..]);
    assert !Live(table[vacant]);
    at := Home(h, size);
    ghost var probe := 0;
    while table[at].key.Some? && table[at].key != Some(key)
      invariant at < size && Dist(Home(h, size), at, size) == probe
      invariant forall j :: 0 <= j < size && Dist(Home(h, size), j, size) < probe ==> Live(table[j]) && table[j].key != Some(key)
      decreases size - probe
    {
      assert probe <= Dist(Home(h, size), vacant, size);
      at := Next(at, size);
      probe := probe + 1;
    }
  }

  /** EVERY LOOKUP ENDS, with the element's own instance, or with none for one the dialect does not hold. */
  method Instance(elements: seq<Key>, table: array<Slot>, key: Key, h: nat, ghost hash: Hash) returns (found: Option<nat>)
    requires table.Length > 0 && 2 * |elements| <= table.Length && h == hash(key)
    requires HoldsFirst(elements, hash, |elements|, table[..])
    ensures found.Some? <==> key in elements
    ensures found.Some? ==> found.value < |elements| && elements[found.value] == key
  {
    hide Table, Count, Held;
    HeldParts(elements, hash, |elements|, table[..]);
    var at := FindPlace(table, key, h, hash);
    EndsFinds(hash, table[..], key, at);
    assert elements[..|elements|] == elements;
    if table[at].key.None? {
      return None;
    }
    ghost var i :| 0 <= i < |elements| && elements[i] == key;
    assert InTable(elements, hash, table[..], i);
    found := Some(table[at].value);
  }
}
