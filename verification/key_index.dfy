/** The open-addressed index in storage: its slots are an array its operations write in place. */
module KeyIndexes {
  import opened KeyOrder
  import opened Basics
  import opened HashTable

  const MIN_CAPACITY: nat := 16
  const SIZE_MAX: nat := 0xFFFF_FFFF_FFFF_FFFF
  const SLOT_BYTES: nat := 32

  /** A capacity is a power of two, the least being sixteen; so a mask by one less is a remainder. */
  ghost predicate IsCapacity(c: nat)
  {
    c == MIN_CAPACITY || (c > MIN_CAPACITY && c % 2 == 0 && IsCapacity(c / 2))
  }

  lemma {:induction false} CapacitiesDouble(c: nat, d: nat)
    requires IsCapacity(c) && IsCapacity(d) && c < d
    ensures 2 * c <= d
  {
    if c > MIN_CAPACITY {
      CapacitiesDouble(c / 2, d / 2);
    }
  }

  lemma CapacityDoubled(c: nat)
    requires IsCapacity(c)
    ensures IsCapacity(2 * c)
  {
    assert 2 * c / 2 == c && 2 * c % 2 == 0;
    LeastCapacity(c);
  }

  lemma {:induction false} LeastCapacity(c: nat)
    requires IsCapacity(c)
    ensures c >= MIN_CAPACITY
  {
  }

  /** `capacity` is the least that is at least `least`. */
  ghost predicate Fits(capacity: nat, least: nat)
  {
    forall c: nat :: IsCapacity(c) && least <= c ==> capacity <= c
  }

  lemma FitsFirst(least: nat)
    ensures IsCapacity(MIN_CAPACITY) && Fits(MIN_CAPACITY, least)
  {
    forall c: nat | IsCapacity(c)
      ensures MIN_CAPACITY <= c
    {
      LeastCapacity(c);
    }
  }

  lemma FitsDoubled(capacity: nat, least: nat)
    requires IsCapacity(capacity) && Fits(capacity, least) && capacity < least
    ensures IsCapacity(2 * capacity) && Fits(2 * capacity, least)
  {
    CapacityDoubled(capacity);
    forall c: nat | IsCapacity(c) && least <= c
      ensures 2 * capacity <= c
    {
      CapacitiesDouble(capacity, c);
    }
  }

  /** A table for `size` keys, at most half full, fits the address space. */
  ghost predicate Tabled(size: nat)
  {
    exists c: nat :: IsCapacity(c) && 2 * size <= c <= SIZE_MAX / SLOT_BYTES
  }

  /** What a table for `size` keys takes so that as many slots again stay vacant; zero says it would outgrow the address
      space. */
  method CapacityFor(size: nat) returns (capacity: nat)
    ensures capacity > 0 ==> IsCapacity(capacity) && 2 * size <= capacity <= SIZE_MAX / SLOT_BYTES && Fits(capacity, 2 * size)
    ensures capacity > 0 <==> Tabled(size)
  {
    hide IsCapacity;
    FitsFirst(2 * size);
    capacity := MIN_CAPACITY;
    if size > SIZE_MAX / 2 {
      return 0;
    }
    while capacity < size * 2
      invariant IsCapacity(capacity) && Fits(capacity, 2 * size) && capacity > 0
    {
      if capacity > SIZE_MAX / 2 {
        return 0;
      }
      FitsDoubled(capacity, 2 * size);
      capacity := capacity * 2;
    }
    if capacity > SIZE_MAX / SLOT_BYTES {
      return 0;
    }
  }

  /** The slot of the key, or the vacant one its lookup ends at; none when every slot has another key. */
  method FindKeySlot(slots: array<Slot>, h: nat, key: Key, ghost hash: Hash) returns (at: Option<nat>)
    requires slots.Length > 0 && h == hash(key) && forall i :: 0 <= i < slots.Length ==> Marked(hash, slots[i])
    ensures at.Some? ==> at.value < slots.Length && Ends(hash, slots[..], key, at.value)
    ensures at.None? ==> forall i :: 0 <= i < slots.Length ==> Live(slots[i])
  {
    var capacity := slots.Length;
    var position: nat := Home(h, capacity);
    var probe: nat := 0;
    while probe < capacity
      invariant position < capacity && probe <= capacity
      invariant probe < capacity ==> Dist(Home(h, capacity), position, capacity) == probe
      invariant forall j :: 0 <= j < capacity && Dist(Home(h, capacity), j, capacity) < probe ==>
                  Live(slots[j]) && slots[j].key != Some(key)
    {
      var slot := slots[position];
      if slot.key.None? || (slot.hash == h && slot.len == |key| && slot.key.value == key) {
        return Some(position);
      }
      assert Marked(hash, slots[position]);
      position := Next(position, capacity);
      probe := probe + 1;
    }
    at := None;
  }

  /** A table of vacant slots, or none when storage cannot be had. */
  method Allocate(capacity: nat, granted: bool, ghost hash: Hash) returns (table: array?<Slot>)
    requires capacity > 0
    ensures granted ==> table != null
    ensures table != null ==> fresh(table) && table.Length == capacity
    ensures table != null ==> Table(hash, table[..]) && Held(table[..]) == map[] && Count(table[..]) == 0
  {
    var ok := HasStorage(granted);
    table := null;
    if ok {
      table := new Slot[capacity](_ => VACANT);
      EmptyTable(hash, table[..]);
    }
  }

  lemma EmptyTable(hash: Hash, s: seq<Slot>)
    requires forall i :: 0 <= i < |s| ==> s[i] == VACANT
    ensures Table(hash, s) && Held(s) == map[] && Count(s) == 0
  {
    CountFull(s);
  }

  /** What the slots before `i` hold, one slot on. */
  lemma HeldOn(s: seq<Slot>, i: nat)
    requires Distinct(s) && i < |s|
    ensures Distinct(s[..i]) && Distinct(s[..i + 1])
    ensures Live(s[i]) ==> s[i].key.value !in Held(s[..i]) && Held(s[..i + 1]) == Held(s[..i])[s[i].key.value := s[i]]
    ensures !Live(s[i]) ==> Held(s[..i + 1]) == Held(s[..i])
    ensures Count(s[..i + 1]) == Count(s[..i]) + if Live(s[i]) then 1 else 0
  {
    hide Held;
    var a, b := s[..i], s[..i + 1];
    assert b[..i] == a;
    if Live(s[i]) {
      InHeld(b, i);
      if s[i].key.value in Held(a) {
        var j := FromHeld(a, s[i].key.value);
      }
    }
    forall k: Key
      ensures k in Held(b) <==> k in Held(a) || (Live(s[i]) && k == s[i].key.value)
      ensures k in Held(b) ==> Held(b)[k] == if Live(s[i]) && k == s[i].key.value then s[i] else Held(a)[k]
    {
      if k in Held(b) {
        var j := FromHeld(b, k);
        if j < i {
          InHeld(a, j);
        }
      }
      if k in Held(a) {
        var j := FromHeld(a, k);
        InHeld(b, j);
      }
    }
    if Live(s[i]) {
      assert Held(b).Keys == Held(a)[s[i].key.value := s[i]].Keys;
    } else {
      assert Held(b).Keys == Held(a).Keys;
    }
  }

  lemma {:induction false} CountPrefix(s: seq<Slot>, i: nat)
    requires i <= |s|
    ensures Count(s[..i]) <= Count(s)
  {
    if i == |s| {
      assert s[..i] == s;
    } else {
      CountPrefix(s[..|s| - 1], i);
      assert s[..|s| - 1][..i] == s[..i];
    }
  }

  /** Every live slot of `from` put in the empty table `to`. */
  method MoveAll(from: array<Slot>, to: array<Slot>, ghost hash: Hash)
    requires from != to && from.Length < to.Length
    requires Table(hash, from[..]) && Table(hash, to[..]) && Held(to[..]) == map[] && Count(to[..]) == 0
    modifies to
    ensures Table(hash, to[..]) && Held(to[..]) == Held(from[..]) && Count(to[..]) == Count(from[..])
  {
    ghost var s := from[..];
    assert s[..0] == [];
    for i := 0 to from.Length
      invariant Table(hash, to[..]) && from[..] == s
      invariant Distinct(s[..i]) && Held(to[..]) == Held(s[..i]) && Count(to[..]) == Count(s[..i])
    {
      HeldOn(s, i);
      var source := from[i];
      if Live(source) {
        CountPrefix(s, i);
        MoveOne(to, source, hash);
      }
    }
    assert s[..from.Length] == s;
  }

  /** One slot put where the lookup of its key ends. */
  method MoveOne(to: array<Slot>, source: Slot, ghost hash: Hash)
    requires Live(source) && Marked(hash, source) && Table(hash, to[..]) && source.key.value !in Held(to[..])
    requires Count(to[..]) < to.Length
    modifies to
    ensures Table(hash, to[..]) && Held(to[..]) == old(Held(to[..]))[source.key.value := source]
    ensures Count(to[..]) == old(Count(to[..])) + 1
  {
    ghost var t := to[..];
    CountFull(t);
    TableMarks(hash, to);
    var at := FindKeySlot(to, source.hash, source.key.value, hash);
    EndsFinds(hash, t, source.key.value, at.value);
    Fill(hash, t, at.value, source);
    to[at.value] := source;
    assert to[..] == t[at.value := source];
  }

  lemma TableMarks(hash: Hash, slots: array<Slot>)
    requires Table(hash, slots[..])
    ensures forall i :: 0 <= i < slots.Length ==> Marked(hash, slots[i]) && slots[i] == slots[..][i]
  {
    forall i | 0 <= i < slots.Length
      ensures Marked(hash, slots[i]) && slots[i] == slots[..][i]
    {
      assert Marked(hash, slots[..][i]);
    }
  }

  lemma Marking(hash: Hash, s: seq<Slot>, p: nat, x: Slot, key: Key)
    requires Table(hash, s) && p < |s| && !Live(s[p]) && !Live(x) && x.extra == x.value == 0 && Ends(hash, s, key, p)
    ensures Table(hash, s[p := x]) && Held(s[p := x]) == Held(s) && Count(s[p := x]) == Count(s)
    ensures Ends(hash, s[p := x], key, p)
  {
    hide Held, Count;
    var t := s[p := x];
    forall i | 0 <= i < |t|
      ensures Reached(t, i)
    {
      assert Reached(s, i);
    }
    CountUpdate(s, p, x);
    SameHeld(s, t);
  }

  lemma SameHeld(s: seq<Slot>, t: seq<Slot>)
    requires |s| == |t| && Distinct(s) && Distinct(t)
    requires forall i :: 0 <= i < |s| ==> (Live(s[i]) <==> Live(t[i])) && (Live(s[i]) ==> s[i] == t[i])
    ensures Held(s) == Held(t)
  {
    hide Held;
    forall k: Key
      ensures k in Held(s) <==> k in Held(t)
      ensures k in Held(s) ==> Held(s)[k] == Held(t)[k]
    {
      if k in Held(s) {
        var i := FromHeld(s, k);
        InHeld(t, i);
      }
      if k in Held(t) {
        var i := FromHeld(t, k);
        InHeld(s, i);
      }
    }
    assert Held(s).Keys == Held(t).Keys;
  }

  lemma {:induction false} SamePattern(s: seq<Slot>, t: seq<Slot>)
    requires |s| == |t| && forall i :: 0 <= i < |s| ==> Live(t[i]) == Live(s[i])
    ensures Count(s) == Count(t)
  {
    if s != [] {
      SamePattern(s[..|s| - 1], t[..|t| - 1]);
    }
  }

  /** An entry may fill a hole no closer to its home slot than itself: it is at least as far from home as from the hole. */
  lemma OverHole(s: seq<Slot>, hole: nat, next: nat)
    requires hole < |s| && next < |s| && hole != next
    ensures Over(s, hole, next) <==> Dist(Home(s[next].hash, |s|), next, |s|) >= Dist(hole, next, |s|)
  {
  }

  lemma NextStarts(hole: nat, v: nat, capacity: nat)
    requires hole < capacity && v < capacity && hole != v && capacity > 1
    ensures Next(hole, capacity) < capacity && Next(hole, capacity) != hole
    ensures Dist(hole, Next(hole, capacity), capacity) <= Dist(hole, v, capacity)
  {
  }

  /** The slot after `next` is nearer the vacant slot `v`, and does not pass it on the way from the hole. */
  lemma NextCloser(hole: nat, next: nat, v: nat, capacity: nat)
    requires hole < capacity && next < capacity && v < capacity && hole != next && next != v
    requires Dist(hole, next, capacity) <= Dist(hole, v, capacity)
    ensures var more := Next(next, capacity);
            && more < capacity && more != hole && more != next && Dist(more, v, capacity) < Dist(next, v, capacity)
            && Dist(hole, more, capacity) <= Dist(hole, v, capacity) && Dist(next, more, capacity) <= Dist(next, v, capacity)
  {
  }

  /** The entries of the run after slot `p` shifted back over it, each to the last hole it may fill. */
  method ShiftBack(slots: array<Slot>, p: nat, ghost hash: Hash) returns (hole: nat)
    requires p < slots.Length && Count(slots[..]) < slots.Length && slots.Length > 1
    requires Shifting(hash, slots[..], p, Next(p, slots.Length)) && Distinct(slots[..][p := VACANT])
    modifies slots
    ensures hole < slots.Length && Table(hash, slots[..][hole := VACANT])
    ensures Held(slots[..][hole := VACANT]) == old(HeldBut(slots[..], p))
    ensures Count(slots[..][hole := VACANT]) == old(Count(slots[..])) - 1
  {
    hide Table, Held, HeldBut, Shifting, Distinct, Reached, Marked, Count, Over, Live, Dist, Next, Home;
    var capacity := slots.Length;
    ghost var s := slots[..];
    ghost var v := VacantSlot(s);
    HoleLives(hash, s, p, Next(p, capacity));
    NextStarts(p, v, capacity);
    hole := p;
    var next: nat := Next(hole, capacity);
    while Live(slots[next])
      invariant hole < capacity && next < capacity && hole != next
      invariant Shifting(hash, slots[..], hole, next) && Distinct(slots[..][hole := VACANT])
      invariant HeldBut(slots[..], hole) == HeldBut(s, p)
      invariant forall i :: 0 <= i < capacity ==> Live(slots[i]) == Live(s[i])
      invariant Dist(hole, next, capacity) <= Dist(hole, v, capacity)
      decreases Dist(next, v, capacity)
    {
      var home := Home(slots[next].hash, capacity);
      ghost var t := slots[..];
      OverHole(t, hole, next);
      NextCloser(hole, next, v, capacity);
      if Dist(home, next, capacity) >= Dist(hole, next, capacity) {
        Shift(hash, t, hole, next);
        slots[hole] := slots[next];
        assert slots[..] == t[hole := t[next]];
        hole := next;
      } else {
        Stay(hash, t, hole, next);
      }
      next := Next(next, capacity);
    }
    SamePattern(s, slots[..]);
    Closed(hash, slots[..], hole, next);
  }

  lemma HoleLives(hash: Hash, s: seq<Slot>, hole: nat, next: nat)
    requires hole < |s| && next < |s| && Shifting(hash, s, hole, next)
    ensures Live(s[hole])
  {
  }

  class KeyIndex {
    /** The index's own hash of a key. */
    const hash: Hash
    var slots: array?<Slot>
    var capacity: nat
    var size: nat

    /** The invariant: every key is reached from its home over live slots, at most half of them live. */
    ghost predicate Valid()
      reads this, slots
    {
      && (slots == null ==> capacity == size == 0)
      && (slots != null ==>
            && slots.Length == capacity && IsCapacity(capacity) && capacity <= SIZE_MAX / SLOT_BYTES
            && Table(hash, slots[..])
            && size == Count(slots[..]) && 2 * size <= capacity)
    }

    ghost function Contents(): map<Key, Slot>
      reads this, slots
      requires Valid()
    {
      if slots == null then map[] else Held(slots[..])
    }

    constructor (hash: Hash)
      ensures Valid() && Contents() == map[] && this.hash == hash
    {
      this.hash, slots, capacity, size := hash, null, 0, 0;
    }

    lemma Parts()
      requires Valid() && slots != null
      ensures slots.Length == capacity && IsCapacity(capacity) && capacity >= MIN_CAPACITY && Table(hash, slots[..])
      ensures size == Count(slots[..]) < |slots[..]| && 2 * size <= capacity
      ensures Distinct(slots[..]) && Contents() == Held(slots[..])
      ensures forall i :: 0 <= i < slots.Length ==> Marked(hash, slots[i])
    {
      LeastCapacity(capacity);
      assert forall i :: 0 <= i < slots.Length ==> slots[..][i] == slots[i];
    }

    /** Every entry moved to a table of `more` slots; nothing changes when the table cannot be had. */
    method Rehash(more: nat, granted: bool) returns (ok: bool)
      requires Valid() && IsCapacity(more) && capacity < more <= SIZE_MAX / SLOT_BYTES
      modifies this
      ensures granted ==> ok
      ensures Valid() && Contents() == old(Contents()) && size == old(size)
      ensures if ok then capacity == more && fresh(slots) else capacity == old(capacity) && slots == old(slots)
    {
      var table := Allocate(more, granted, hash);
      if table == null {
        return false;
      }
      if slots != null {
        Parts();
        MoveAll(slots, table, hash);
      }
      slots, capacity := table, more;
      ok := true;
    }

    /** The index emptied, with room for `expected` keys when it can be had. */
    method Init(expected: nat, granted: bool) returns (ok: bool)
      modifies this
      ensures granted && Tabled(expected) ==> ok
      ensures capacity == 0 || (expected > 0 && IsCapacity(capacity) && Fits(capacity, 2 * expected))
      ensures Valid() && Contents() == map[] && size == 0 && (slots == null || fresh(slots))
      ensures ok ==> capacity >= 2 * expected
    {
      slots, capacity, size := null, 0, 0;
      ok := Reserve(expected, granted);
    }

    /** Room for `expected` keys in all, in the least table that has it, or the one there is; nothing changes when it
        cannot be had. */
    method Reserve(expected: nat, granted: bool) returns (ok: bool)
      requires Valid()
      modifies this
      ensures Valid() && Contents() == old(Contents()) && size == old(size)
      ensures ok ==> capacity >= 2 * expected && capacity >= old(capacity)
      ensures (slots == old(slots) && capacity == old(capacity)) || (ok && fresh(slots))
      ensures ok && expected > 0 ==> slots != null
      ensures 2 * expected <= old(capacity) ==> ok && slots == old(slots) && capacity == old(capacity)
      ensures capacity == old(capacity) || (expected > 0 && IsCapacity(capacity) && Fits(capacity, 2 * expected))
      ensures granted && Tabled(expected) ==> ok
    {
      if slots != null {
        assert 2 * expected <= capacity ==> Tabled(expected);
      }
      if expected == 0 {
        return true;
      }
      var more := CapacityFor(expected);
      if more == 0 {
        return false;
      }
      if more <= capacity {
        return true;
      }
      ok := Rehash(more, granted);
    }

    /** The slot of the key, or a vacant one ready to be committed, had by growing only for a new key the table has no
        room for; none, and nothing changed, when storage cannot be had. */
    method Entry(key: Key, granted: bool) returns (at: Option<nat>)
      requires Valid()
      modifies this, slots
      ensures Valid() && Contents() == old(Contents()) && size == old(size)
      ensures slots == old(slots) || fresh(slots)
      ensures key in old(Contents()) ==> at.Some? && slots == old(slots) && unchanged(slots)
      ensures at.Some? ==> slots != null && at.value < slots.Length && Ready(key, at.value)
      ensures at.Some? && key in Contents() ==> slots[at.value] == Contents()[key]
      ensures at.Some? && key !in Contents() ==> !Live(slots[at.value])
      ensures old(slots) != null && 2 * (old(size) + 1) <= old(capacity) ==> at.Some? && slots == old(slots)
      ensures granted && Tabled(old(size) + 1) ==> at.Some?
      ensures at.None? ==> slots == old(slots) && capacity == old(capacity) && (slots != null ==> unchanged(slots))
      ensures capacity == old(capacity) || (IsCapacity(capacity) && Fits(capacity, 2 * (size + 1)))
    {
      hide Tabled, Fits, IsCapacity, Ends, Live, Marked;
      if capacity == 0 {
        var had := Reserve(1, granted);
        if !had {
          return None;
        }
      }
      var p := Seek(key);
      if Live(slots[p]) {
        ReadyAt(key, p);
        return Some(p);
      }
      at := Vacancy(key, p, granted);
    }

    lemma ReadyAt(key: Key, p: nat)
      requires slots != null && p < slots.Length && Ends(hash, slots[..], key, p) && Live(slots[p])
      ensures Ready(key, p)
    {
    }

    /** A vacant slot for a key the table has not, `p` where its lookup ends now. */
    method Vacancy(key: Key, p: nat, granted: bool) returns (at: Option<nat>)
      requires Valid() && slots != null && p < slots.Length && Ends(hash, slots[..], key, p) && !Live(slots[p])
      requires key !in Contents()
      modifies this, slots
      ensures Valid() && Contents() == old(Contents()) && size == old(size)
      ensures slots == old(slots) || fresh(slots)
      ensures at.Some? ==> slots != null && at.value < slots.Length && Ready(key, at.value) && !Live(slots[at.value])
      ensures 2 * (old(size) + 1) <= old(capacity) ==> at.Some? && slots == old(slots)
      ensures granted && Tabled(old(size) + 1) ==> at.Some?
      ensures at.None? ==> slots == old(slots) && capacity == old(capacity) && unchanged(slots)
      ensures capacity == old(capacity) || (IsCapacity(capacity) && Fits(capacity, 2 * (size + 1)))
    {
      hide Tabled, Fits, IsCapacity, Ends, Marked;
      var q := p;
      if size + 1 > capacity / 2 {
        var had := Reserve(size + 1, granted);
        if !had {
          return None;
        }
        q := Seek(key);
      }
      Mark(q, key);
      at := Some(q);
    }

    /** A slot the lookup of the key ends at: the key's own, or one with the key's hash and length to commit. */
    ghost predicate Ready(key: Key, p: nat)
      reads this, slots
    {
      && slots != null && p < slots.Length && Ends(hash, slots[..], key, p)
      && (!Live(slots[p]) ==> slots[p].hash == hash(key) && slots[p].len == |key| && 2 * (size + 1) <= capacity)
    }

    /** The slot a lookup of the key ends at: in a table half full there is one. */
    method Seek(key: Key) returns (p: nat)
      requires Valid() && slots != null
      ensures p < slots.Length && Ends(hash, slots[..], key, p)
      ensures Live(slots[p]) <==> key in Contents()
      ensures Live(slots[p]) ==> slots[p] == Contents()[key]
    {
      Parts();
      CountFull(slots[..]);
      var at := FindKeySlot(slots, hash(key), key, hash);
      assert at.Some?;
      p := at.value;
      EndsFinds(hash, slots[..], key, p);
    }

    /** The key's hash and length written to a vacant slot. */
    method Mark(p: nat, key: Key)
      requires Valid() && slots != null && p < slots.Length && !Live(slots[p]) && Ends(hash, slots[..], key, p)
      modifies slots
      ensures Valid() && Contents() == old(Contents()) && !Live(slots[p]) && Ends(hash, slots[..], key, p)
      ensures slots[p].hash == hash(key) && slots[p].len == |key|
    {
      ghost var s := slots[..];
      Parts();
      slots[p] := slots[p].(hash := hash(key), len := |key|);
      assert slots[..] == s[p := slots[p]];
      Marking(hash, s, p, slots[p], key);
    }

    /** A vacant slot `Entry` gave made the key's. */
    method Commit(p: nat, key: Key)
      requires Valid() && Ready(key, p) && !Live(slots[p])
      modifies `size, slots
      ensures Valid() && size == old(size) + 1
      ensures slots[p] == old(slots[p]).(key := Some(key)) && Contents() == old(Contents())[key := slots[p]]
    {
      ghost var s := slots[..];
      Parts();
      assert Marked(hash, slots[p].(key := Some(key)));
      Fill(hash, s, p, slots[p].(key := Some(key)));
      slots[p] := slots[p].(key := Some(key));
      assert slots[..] == s[p := slots[p]];
      size := size + 1;
    }

    /** The slot of the key, or none. */
    method Find(key: Key) returns (at: Option<nat>)
      requires Valid()
      ensures at.Some? <==> key in Contents()
      ensures at.Some? ==> slots != null && at.value < slots.Length && slots[at.value] == Contents()[key]
    {
      if capacity == 0 {
        return None;
      }
      var p := Seek(key);
      at := if Live(slots[p]) then Some(p) else None;
    }

    /** A live slot removed: the entries after it are shifted back until its run ends. */
    method Remove(p: nat)
      requires Valid() && slots != null && p < slots.Length && Live(slots[p])
      modifies `size, slots
      ensures Valid() && size == old(size) - 1
      ensures Contents() == old(Contents()) - {old(slots[p].key.value)}
    {
      Parts();
      ghost var s := slots[..];
      Opened(hash, s, p);
      var hole := ShiftBack(slots, p, hash);
      ghost var t := slots[..];
      slots[hole] := VACANT;
      assert slots[..] == t[hole := VACANT];
      size := size - 1;
    }
  }
}
