/** A growing array that copies itself ahead of its growth: a second storage shadows a front of the
    first, a slice at a time, and one switch moves what is left. */
module AheadArrays {
  import opened Basics

  const SIZE_MAX: nat := 0xFFFF_FFFF_FFFF_FFFF
  const SLICE_BYTES: nat := 2048
  const FIRST: nat := 8

  /** How many elements of `width` bytes make a slice, never none. */
  function Slice(width: nat): (s: nat)
    requires width > 0
    ensures s >= 1
  {
    if width < SLICE_BYTES then SliceOf(width) else 1
  }

  function SliceOf(width: nat): (s: nat)
    requires 0 < width < SLICE_BYTES
    ensures s >= 1 && s * width <= SLICE_BYTES < (s + 1) * width
  {
    SLICE_BYTES / width
  }

  /** The count an array that holds `count` of `capacity` places can reach before it asks to grow again. */
  function Room(capacity: nat, count: nat, slice: nat): (r: nat)
    requires count <= capacity && slice > 0
    ensures count <= r <= capacity
    ensures r < capacity ==> capacity > 2 * slice && capacity / 2 <= r
    ensures capacity <= 2 * slice ==> r == capacity
    ensures capacity / 2 < count ==> r < count + slice
    ensures capacity / 2 < count && r == capacity > 2 * slice ==> capacity < count + slice
    ensures capacity > 2 * slice && count <= capacity / 2 ==> r == capacity / 2
  {
    if capacity <= 2 * slice then capacity
    else if count <= capacity / 2 then capacity / 2
    else
      var end := count - count % slice + slice - 1;
      if end < capacity then end else capacity
  }

  /** `b` is `a` doubled some number of times. */
  ghost predicate Doubled(a: nat, b: nat)
  {
    b == a || (a < b && b % 2 == 0 && Doubled(a, b / 2))
  }

  lemma DoubledOn(a: nat, b: nat)
    requires Doubled(a, b) && 0 < a
    ensures Doubled(a, 2 * b) && a <= b
  {
    DoubledGrows(a, b);
    assert 2 * b / 2 == b && 2 * b % 2 == 0;
  }

  lemma {:induction false} DoubledGrows(a: nat, b: nat)
    requires Doubled(a, b)
    ensures a <= b
  {
  }

  /** The least doubling of a capacity that holds `total`. */
  function LeastDoubling(capacity: nat, total: nat): (larger: nat)
    requires capacity > 0
    ensures larger >= total && larger >= capacity
    decreases total - capacity
  {
    if capacity >= total then capacity else LeastDoubling(2 * capacity, total)
  }

  lemma DoublesMore(capacity: nat, total: nat)
    ensures 0 < capacity < total ==> LeastDoubling(capacity, total) == LeastDoubling(2 * capacity, total)
  {
  }

  lemma DoublesNone(capacity: nat, total: nat)
    ensures capacity > 0 && capacity >= total ==> LeastDoubling(capacity, total) == capacity
  {
  }

  lemma DoublesOnce(capacity: nat, total: nat)
    ensures capacity > 0 && capacity < total <= 2 * capacity ==> LeastDoubling(capacity, total) == 2 * capacity
  {
  }

  /** The capacity a full array grows to. */
  method GrownCapacity(capacity: nat, total: nat) returns (larger: nat)
    requires capacity < total
    ensures larger >= total && (capacity > 0 ==> larger <= 2 * total)
    ensures capacity == 0 ==> larger == if total > FIRST then total else FIRST
    ensures capacity > 0 ==> Doubled(capacity, larger) && larger / 2 < total && larger == LeastDoubling(capacity, total)
    ensures total == capacity + 1 && capacity > 0 ==> larger == 2 * capacity
  {
    larger := if capacity > 0 then capacity else if total > FIRST then total else FIRST;
    ghost var first := larger;
    while larger < total
      invariant larger > 0 && Doubled(first, larger) && (larger == first || larger / 2 < total)
      invariant LeastDoubling(larger, total) == LeastDoubling(first, total)
      invariant capacity > 0 ==> larger == first || larger >= 2 * capacity
      invariant total == capacity + 1 && capacity > 0 ==> larger == capacity || larger == 2 * capacity
      decreases total - larger
    {
      DoubledOn(first, larger);
      larger := larger * 2;
    }
  }

  /** A storage of `capacity` places, or none when it cannot be had. */
  method Allocate<T(0)>(capacity: nat, granted: bool) returns (storage: array?<T>)
    ensures storage != null ==> fresh(storage) && storage.Length == capacity
    ensures granted ==> storage != null
  {
    var ok := HasStorage(granted);
    storage := null;
    if ok {
      storage := new T[capacity];
    }
  }

  /** The elements of `from` from `first` up to `end` copied to the same places of `to`. */
  method CopySlice<T>(from: array<T>, to: array<T>, first: nat, end: nat)
    requires from != to && first <= end <= from.Length && end <= to.Length
    requires forall i :: 0 <= i < first ==> to[i] == from[i]
    modifies to
    ensures forall i :: 0 <= i < end ==> to[i] == from[i]
  {
    for i := first to end
      invariant forall k :: 0 <= k < i ==> to[k] == from[k]
    {
      to[i] := from[i];
    }
  }

  /** `xs` copied to the places of `a` from `at` on. */
  method PutAll<T>(a: array<T>, at: nat, xs: seq<T>)
    requires at + |xs| <= a.Length
    modifies a
    ensures a[..at] == old(a[..at]) && a[at..at + |xs|] == xs && a[..at + |xs|] == old(a[..at]) + xs
    ensures forall k :: 0 <= k < at ==> a[k] == old(a[k])
  {
    for i := 0 to |xs|
      invariant forall k :: 0 <= k < at ==> a[k] == old(a[k])
      invariant a[at..at + i] == xs[..i]
    {
      a[at + i] := xs[i];
    }
  }

  function Min(a: nat, b: nat): nat {
    if a < b then a else b
  }

  /** How far the copies reach once an array holding `held` asks for `total` places. */
  function Pace(capacity: nat, held: nat, total: nat): nat
    requires capacity / 2 <= total
  {
    Min(2 * (total - capacity / 2), held)
  }

  /** How much of it is copied once it has asked: more than was `moved` only in an array of more than a slice. */
  function Reached(capacity: nat, held: nat, total: nat, moved: nat, slice: nat): (r: nat)
    requires capacity / 2 <= total
    ensures moved <= r && (moved <= held ==> r <= held)
  {
    if held > slice && Pace(capacity, held, total) > moved then Pace(capacity, held, total) else moved
  }

  /** Storage of twice `total` places has no more bytes than an address space. */
  lemma Bytes(total: nat, width: nat)
    requires width > 0 && total <= SIZE_MAX / 2 / width
    ensures 2 * total <= SIZE_MAX / width
  {
    var half := SIZE_MAX / 2;
    TimesUp(total, half / width, width);
    assert half / width * width <= half;
    DivideDown(2 * total, width, SIZE_MAX);
  }

  lemma DivideDown(a: nat, b: nat, c: nat)
    requires b > 0 && a * b <= c
    ensures a <= c / b
  {
    if c / b < a {
      TimesUp(c / b + 1, a, b);
    }
  }

  // ---------- The pace of a run of pushes ----------

  /** How far the copies reach in an array of `capacity` places only ever pushed to, last asked for `asked`. */
  ghost predicate PacedAt(capacity: nat, asked: nat, moved: nat, slice: nat)
  {
    if capacity <= 2 * slice then moved == 0
    else if asked <= capacity / 2 then moved == 0 && capacity == FIRST
    else moved == Min(2 * (asked - capacity / 2), asked - 1) || (asked == capacity / 2 + 1 && moved == 0)
  }

  lemma {:induction false} Even(c: nat)
    requires Doubled(FIRST, c)
    ensures c % 2 == 0 && c >= FIRST
  {
    if c != FIRST {
      Even(c / 2);
    }
  }

  lemma PacedFirst(slice: nat)
    ensures Doubled(FIRST, FIRST) && PacedAt(FIRST, 1, 0, slice)
  {
  }

  /** The next copy of a run keeps pace, and copies no more than two slices and two elements. */
  lemma PacedCopy(c: nat, asked: nat, moved: nat, slice: nat)
    requires c % 2 == 0 && asked <= c && slice > 0 && PacedAt(c, asked, moved, slice) && Room(c, asked, slice) < c
    ensures var total := Room(c, asked, slice) + 1;
            var reached := Reached(c, total - 1, total, moved, slice);
            PacedAt(c, total, reached, slice) && moved <= reached <= moved + 2 * slice + 2
  {
  }

  /** The switch of a run moves no more than two slices, and there is storage ahead to switch to. */
  lemma PacedSwitch(c: nat, asked: nat, moved: nat, slice: nat)
    requires c % 2 == 0 && asked <= c && slice > 0 && PacedAt(c, asked, moved, slice) && Room(c, asked, slice) == c
    ensures c - moved <= 2 * slice
    ensures c > 2 * slice ==> moved > 0
    ensures PacedAt(2 * c, c + 1, 0, slice)
  {
  }

  /** What a growth to `n + 1` places of an array full to its room of `n` does, `had` when it has storage ahead. */
  ghost predicate Steps(c: nat, n: nat, moved: nat, slice: nat, had: bool, c2: nat, moved2: nat, spent: nat)
  {
    && c / 2 <= n + 1
    && if n + 1 <= c then c2 == c && moved2 == Reached(c, n, n + 1, moved, slice) && spent == moved2 - moved
       else c2 == 2 * c && moved2 == 0 && spent == if had then n - moved else n
  }

  /** A growth keeps the pace of a run. */
  lemma PacedOn(c: nat, asked: nat, moved: nat, slice: nat, had: bool, c2: nat, moved2: nat, spent: nat)
    requires slice > 0 && Doubled(FIRST, c) && asked <= c && PacedAt(c, asked, moved, slice)
    requires moved <= Room(c, asked, slice) && (moved > 0 ==> had) && (c <= 2 * slice ==> !had)
    requires Steps(c, Room(c, asked, slice), moved, slice, had, c2, moved2, spent)
    ensures spent <= 2 * slice + 2 && Doubled(FIRST, c2) && PacedAt(c2, Room(c, asked, slice) + 1, moved2, slice)
    ensures c2 + moved2 == c + moved + spent && (c2 == c || c2 / 2 < Room(c, asked, slice) + 1)
  {
    hide Doubled, PacedAt, Reached;
    Even(c);
    if Room(c, asked, slice) + 1 <= c {
      PacedCopy(c, asked, moved, slice);
    } else {
      PacedSwitch(c, asked, moved, slice);
      DoubledOn(FIRST, c);
    }
  }

  /** THE MOVES OF A RUN ARE LINEAR in its pushes. */
  lemma LinearWork(capacity: nat, asked: nat, moved: nat, slice: nat, count: nat, work: nat)
    requires capacity == 0 ==> count == work == 0
    requires capacity > 0 ==> (capacity == FIRST || capacity / 2 < count) && work == capacity - FIRST + moved && moved <= count
    ensures work <= 3 * count
  {
  }

  /** What the next growth of a run moves. */
  ghost function Moves(c: nat, asked: nat, moved: nat, slice: nat): int
    requires slice > 0 && asked <= c
  {
    var n := Room(c, asked, slice);
    if n + 1 <= c then Reached(c, n, n + 1, moved, slice) - moved else n - moved
  }

  /** which is what it spends. */
  lemma MovesSpent(c: nat, asked: nat, moved: nat, slice: nat, had: bool, c2: nat, moved2: nat, spent: nat)
    requires slice > 0 && asked <= c && moved <= Room(c, asked, slice) && (moved > 0 ==> had)
    requires Steps(c, Room(c, asked, slice), moved, slice, had, c2, moved2, spent)
    ensures spent == Moves(c, asked, moved, slice)
  {
  }

  /** A GROWTH OF A RUN MOVES MORE THAN TWO SLICES exactly when it is the first after a switch to a capacity at
      whose half the next place starts a slice. */
  lemma MovesMore(c: nat, asked: nat, moved: nat, slice: nat)
    requires slice > 0 && Doubled(FIRST, c) && asked <= c && PacedAt(c, asked, moved, slice) && c > 2 * slice
    ensures Moves(c, asked, moved, slice) > 2 * slice <==> asked == c / 2 + 1 && moved == 0 && asked % slice == 0
  {
    hide Doubled;
    Even(c);
    if asked > c / 2 {
      NextSlice(c, asked, slice);
    }
  }

  lemma NextSlice(c: nat, asked: nat, slice: nat)
    requires slice > 0 && c / 2 < asked <= c && c > 2 * slice
    ensures var n := Room(c, asked, slice);
            n < c ==> n + 1 - asked == slice - asked % slice
    ensures Room(c, asked, slice) == c ==> c - asked < slice
  {
  }

  /** So the growth after the switch of a run from `c` places to twice as many does exactly when a slice divides `c + 1`. */
  lemma SwitchMovesMore(c: nat, slice: nat)
    requires slice > 0 && Doubled(FIRST, c) && c > slice
    ensures PacedAt(2 * c, c + 1, 0, slice) && (Moves(2 * c, c + 1, 0, slice) > 2 * slice <==> (c + 1) % slice == 0)
  {
    hide Moves;
    DoubledOn(FIRST, c);
    MovesMore(2 * c, c + 1, 0, slice);
  }

  /** A PUSH KEEPS THE COPIES exactly when none is past the elements, or the one that is there happens to be of
      what is pushed: after room was made past the count, a push must wait until the places are taken. */
  lemma PushKeepsCopies<T>(values: seq<T>, next: seq<T>, count: nat, moved: nat, x: T)
    requires count < |values| && moved <= |values| && moved <= |next| && count < |next|
    requires forall i :: 0 <= i < count && i < moved ==> values[i] == next[i]
    ensures (forall i :: 0 <= i < count + 1 && i < moved ==> values[count := x][i] == next[i])
            <==> moved <= count || next[count] == x
  {
    var after := values[count := x];
    if moved > count && next[count] != x {
      assert after[count] != next[count];
    }
  }

  class AheadArray<T(0)> {
    const width: nat
    var values: array?<T>
    var count: nat
    var room: nat
    var capacity: nat
    var next: array?<T>
    var moved: nat
    /** What was last asked of this capacity, what the last growth moved, and what all of them did. */
    ghost var asked: nat
    ghost var spent: nat
    ghost var work: nat

    /** The places the fields name, and the room the capacity gives. */
    ghost predicate Shape()
      reads this
    {
      && width > 0 && FIRST <= SIZE_MAX / width
      && (values == null <==> capacity == 0) && (values != null ==> values.Length == capacity)
      && count <= room <= capacity <= SIZE_MAX / width && moved <= capacity
      && (capacity <= 2 * Slice(width) ==> room == capacity && next == null) && capacity / 2 <= room
      && (next == null ==> moved == 0)
      && (next != null ==> next != values && next.Length == 2 * capacity)
    }

    /** The copies of the first `n` elements hold. */
    ghost predicate Shadows(n: nat)
      requires Shape()
      reads this, values, next
    {
      forall i :: 0 <= i < n && i < moved ==> values[i] == next[i]
    }

    /** The invariant: the copies of the elements hold. */
    ghost predicate Valid()
      reads this, values, next
    {
      Shape() && Shadows(count)
    }

    /** No copy is past the elements: so it is but after room was made past the count. */
    ghost predicate Settled()
      reads this
    {
      moved <= count
    }

    ghost function Elements(): (s: seq<T>)
      requires Shape()
      reads this, values
      ensures |s| == count
    {
      if values == null then [] else values[..count]
    }

    /** The first `n` places, elements or not. */
    ghost function Places(n: nat): (s: seq<T>)
      requires Shape() && n <= capacity
      reads this, values
      ensures |s| == n
    {
      if values == null then [] else values[..n]
    }

    constructor (width: nat)
      requires width > 0 && FIRST <= SIZE_MAX / width
      ensures Valid() && Settled() && Elements() == [] && Paced()
    {
      this.width := width;
      values, count, room, capacity, next, moved := null, 0, 0, 0, null, 0;
      asked, spent, work := 0, 0, 0;
    }

    /** An array that holds `elements` in storage of `capacity` places, with room for `total`. */
    constructor Holding(elements: seq<T>, storage: array<T>, total: nat)
      requires |elements| <= total <= storage.Length <= SIZE_MAX && storage[..|elements|] == elements && storage.Length > 0
      ensures Valid() && Settled() && width == 1 && count == |elements| && values == storage && next == null
      ensures Elements() == elements && capacity == storage.Length && room == Room(capacity, total, Slice(1))
    {
      width := 1;
      values, count, capacity, next, moved := storage, |elements|, storage.Length, null, 0;
      room := Room(storage.Length, total, Slice(1));
      asked, spent, work := total, |elements|, |elements|;
    }

    /** Storage ahead of twice the capacity, when there is none yet. */
    method GetNext(granted: bool) returns (ok: bool)
      requires Shape() && capacity > 2 * Slice(width)
      modifies this`next
      ensures Shape() && (ok <==> next != null)
      ensures old(next) != null ==> next == old(next)
      ensures old(next) == null && ok ==> fresh(next)
      ensures granted && capacity <= SIZE_MAX / 2 / width ==> ok
    {
      hide Slice;
      if next == null {
        if capacity > SIZE_MAX / 2 / width {
          return false;
        }
        var storage := Allocate(2 * capacity, granted);
        if storage == null {
          return false;
        }
        next := storage;
      }
      ok := true;
    }

    /** The elements up to `end` copied to the storage ahead. */
    method CopyTo(end: nat, held: nat)
      requires Shape() && next != null && moved < end <= held <= capacity && Shadows(held)
      modifies this`moved, this`spent, this`work, next
      ensures Shape() && Shadows(held) && moved == end
      ensures spent == end - old(moved) && work == old(work) + spent
    {
      hide Slice;
      CopySlice(values, next, moved, end);
      spent := end - moved;
      work := work + spent;
      moved := end;
    }

    /** Short of the capacity: a slice more is copied ahead. */
    method Copy(held: nat, total: nat, granted: bool) returns (ok: bool)
      requires Shape() && moved <= held <= total && held <= capacity && room < total <= capacity && Shadows(held)
      modifies this`room, this`next, this`moved, this`asked, this`spent, this`work, next
      ensures Shape() && moved <= held && Shadows(held)
      ensures next == old(next) || fresh(next)
      ensures !ok ==> room == old(room) && next == old(next) && moved == old(moved) && asked == old(asked) && work == old(work) && spent == 0
      ensures ok ==>
                && room == Room(capacity, total, Slice(width)) && asked == total
                && moved == Reached(capacity, held, total, old(moved), Slice(width))
                && spent == moved - old(moved) && work == old(work) + spent
      ensures old(next) != null || (granted && capacity <= SIZE_MAX / 2 / width) ==> ok
      ensures held <= Slice(width) ==> ok && spent == 0 && next == old(next)
    {
      hide Slice, Room;
      spent := 0;
      var pace := 2 * (total - capacity / 2);
      var end := if pace < held then pace else held;
      if end > moved && held > Slice(width) {
        ok := GetNext(granted);
        if !ok {
          return;
        }
        CopyTo(end, held);
      }
      room := Room(capacity, total, Slice(width));
      asked := total;
      ok := true;
    }

    /** Past the capacity, into the storage ahead: what was not copied moves. */
    method Switch(held: nat, total: nat)
      requires Shape() && moved <= held <= capacity < total <= 2 * capacity && next != null && Shadows(held)
      requires 2 * capacity <= SIZE_MAX / width
      modifies this`values, this`room, this`capacity, this`next, this`moved, this`asked, this`spent, this`work, next
      ensures Shape() && values == old(next) && capacity == 2 * old(capacity) && next == null && moved == 0
      ensures Places(held) == old(Places(held))
      ensures room == Room(capacity, total, Slice(width)) && asked == total
      ensures spent == held - old(moved) && work == old(work) + spent
    {
      var larger := 2 * capacity;
      CopySlice(values, next, moved, held);
      spent := held - moved;
      work := work + spent;
      asked := total;
      assert next[..held] == values[..held];
      values, capacity, next, moved := next, larger, null, 0;
      room := Room(larger, total, Slice(width));
    }

    /** Past the capacity with no storage ahead of twice it: the array moves whole. */
    method MoveWhole(held: nat, total: nat, larger: nat, granted: bool) returns (ok: bool)
      requires Shape() && held <= capacity < total <= larger <= SIZE_MAX / width
      modifies this`values, this`room, this`capacity, this`next, this`moved, this`asked, this`spent, this`work
      ensures Shape()
      ensures !ok ==> unchanged(`values, `room, `capacity, `next, `moved, `asked, `work) && spent == 0
      ensures ok ==>
                && fresh(values) && capacity == larger && next == null && moved == 0 && Places(held) == old(Places(held))
                && room == Room(capacity, total, Slice(width)) && asked == total
                && spent == held && work == old(work) + spent
      ensures granted ==> ok
    {
      spent := 0;
      var storage := Allocate(larger, granted);
      if storage == null {
        return false;
      }
      if values != null {
        CopySlice(values, storage, 0, held);
        assert storage[..held] == values[..held];
      }
      spent := held;
      work := work + spent;
      asked := total;
      values, capacity, next, moved := storage, larger, null, 0;
      room := Room(larger, total, Slice(width));
      ok := true;
    }

    /** Whether storage for `total` elements, and as much ahead, can be asked for. */
    ghost predicate Fits(total: nat)
      reads this
    {
      width > 0 && total <= SIZE_MAX / 2 / width && (total <= capacity ==> capacity <= SIZE_MAX / 2 / width)
    }

    /** Room for `total` elements in an array that holds `held`; nothing changes when storage cannot be had. The storage
        ahead is enough up to twice the capacity. */
    method Extend(held: nat, total: nat, granted: bool) returns (ok: bool)
      requires Shape() && moved <= held <= total && count <= held <= capacity && room < total && Shadows(held)
      modifies this`values, this`room, this`capacity, this`next, this`moved, this`asked, this`spent, this`work, next
      ensures Shape() && capacity >= old(capacity) && moved <= held && Shadows(held) && Places(held) == old(Places(held))
      ensures values == old(values) || values == old(next) || fresh(values)
      ensures !ok ==> Unmoved(old(values), old(room), old(capacity), old(next), old(moved), old(asked), old(work)) && spent == 0
      ensures ok ==> total <= room && room == Room(capacity, total, Slice(width)) && asked == total && work == old(work) + spent
      ensures ok && total <= old(capacity) ==>
                && capacity == old(capacity) && spent == moved - old(moved)
                && moved == Reached(capacity, held, total, old(moved), Slice(width))
      ensures ok && total > old(capacity) ==>
                && next == null && moved == 0
                && spent == (if old(next) != null && capacity == 2 * old(capacity) then held - old(moved) else held)
      ensures ok && total == old(capacity) + 1 ==> capacity == if old(capacity) > 0 then 2 * old(capacity) else FIRST
      ensures ok && total > old(capacity) > 0 ==> capacity == LeastDoubling(old(capacity), total)
      ensures next == null || next == old(next) || fresh(next)
      ensures old(Fits(total)) && (granted || (old(next) != null && total <= 2 * old(capacity))) ==> ok
      ensures total > old(capacity) && total > SIZE_MAX / 2 / width ==> !ok
    {
      hide Slice, Room, LeastDoubling, Reached;
      if total <= capacity {
        ok := Copy(held, total, granted);
        return;
      }
      ok := Outgrow(held, total, granted);
    }

    /** The same past the capacity. */
    method Outgrow(held: nat, total: nat, granted: bool) returns (ok: bool)
      requires Shape() && moved <= held <= capacity < total && Shadows(held)
      modifies this`values, this`room, this`capacity, this`next, this`moved, this`asked, this`spent, this`work, next
      ensures Shape() && capacity >= old(capacity) && moved <= held && Shadows(held) && Places(held) == old(Places(held))
      ensures values == old(values) || values == old(next) || fresh(values)
      ensures !ok ==> Unmoved(old(values), old(room), old(capacity), old(next), old(moved), old(asked), old(work)) && spent == 0
      ensures ok ==>
                && total <= room && room == Room(capacity, total, Slice(width)) && asked == total && work == old(work) + spent
                && next == null && moved == 0
                && spent == (if old(next) != null && capacity == 2 * old(capacity) then held - old(moved) else held)
      ensures ok && old(capacity) == 0 ==> capacity == if total > FIRST then total else FIRST
      ensures ok && old(capacity) > 0 ==> capacity == LeastDoubling(old(capacity), total)
      ensures ok && total == old(capacity) + 1 && old(capacity) > 0 ==> capacity == 2 * old(capacity)
      ensures total > SIZE_MAX / 2 / width ==> !ok
      ensures total <= SIZE_MAX / 2 / width && (granted || (old(next) != null && total <= 2 * old(capacity))) ==> ok
    {
      hide Slice, Room, Doubled, LeastDoubling;
      DoublesOnce(capacity, total);
      spent := 0;
      if total > SIZE_MAX / 2 / width {
        return false;
      }
      Bytes(total, width);
      var larger := GrownCapacity(capacity, total);
      if next != null && larger == 2 * capacity {
        assert next[..moved] == values[..moved];
        Switch(held, total);
        return true;
      }
      ok := MoveWhole(held, total, larger, granted);
    }

    ghost predicate Unmoved(values: array?<T>, room: nat, capacity: nat, next: array?<T>, moved: nat, asked: nat, work: nat)
      reads this
    {
      && this.values == values && this.room == room && this.capacity == capacity && this.next == next
      && this.moved == moved && this.asked == asked && this.work == work
    }

    /** The copies of the elements from `first` on are void. */
    method Unsettle(first: nat)
      requires Shape()
      modifies this`moved
      ensures Shape() && moved == Min(old(moved), first)
    {
      if moved > first {
        moved := first;
      }
    }

    /** Whether the array has, or could be given, room for `total` elements. */
    method Reserve(total: nat, granted: bool) returns (ok: bool)
      requires Valid() && Settled()
      modifies this`values, this`room, this`capacity, this`next, this`moved, this`asked, this`spent, this`work, next
      ensures Valid() && Settled() && Elements() == old(Elements())
      ensures values == old(values) || values == old(next) || fresh(values)
      ensures ok <==> total <= room
      ensures total <= old(room) ==> ok && Kept(old(values), old(room), old(capacity), old(next), old(moved))
      ensures old(Fits(total)) && (granted || (old(next) != null && total <= 2 * old(capacity))) ==> ok
    {
      hide Slice, Room, LeastDoubling, Reached;
      spent := 0;
      if total <= room {
        return true;
      }
      ok := Extend(count, total, granted);
    }

    /** The storage and the copies are as they were. */
    ghost predicate Kept(values: array?<T>, room: nat, capacity: nat, next: array?<T>, moved: nat)
      reads this
    {
      && this.values == values && this.room == room && this.capacity == capacity && this.next == next && this.moved == moved
    }

    /** The state of an array only ever pushed to. */
    ghost predicate Paced()
      reads this
    {
      && Shape() && Settled()
      && (capacity == 0 ==> count == work == 0) && (capacity > 0 ==> PacedFor(count))
    }

    /** What a run of pushes keeps of the storage of `n` elements. */
    ghost predicate PacedFor(n: nat)
      reads this
    {
      && width > 0 && Doubled(FIRST, capacity) && (capacity == FIRST || capacity / 2 < n)
      && work == capacity - FIRST + moved && asked <= capacity
      && room == Room(capacity, asked, Slice(width)) && PacedAt(capacity, asked, moved, Slice(width))
    }

    /** `x` pushed past the last element: whether there was room for it. In a run of pushes no growth moves
        more than two slices and two elements, and all of them at most three for each element. */
    method Push(x: T, granted: bool) returns (ok: bool)
      requires Valid() && Settled()
      modifies this, values, next
      ensures Valid() && Settled()
      ensures Elements() == if ok then old(Elements()) + [x] else old(Elements())
      ensures old(Paced()) ==> Paced() && spent <= 2 * Slice(width) + 2 && work <= 3 * count
      ensures old(count) < old(room) ==> ok && Kept(old(values), old(room), old(capacity), old(next), old(moved))
      ensures old(Fits(count + 1)) && (granted || (old(next) != null && old(count) < 2 * old(capacity))) ==> ok
    {
      hide Doubled, PacedAt, Room, Slice, Shadows, Elements;
      ok := MakePlace(granted);
      if ok {
        PutLast(x);
      }
      if old(Paced()) {
        PacedWork();
      }
    }

    /** `x` put in the place after the last element. */
    method PutLast(x: T)
      requires Valid() && Settled() && count < room
      modifies this`count, values
      ensures Valid() && Settled() && count == old(count) + 1 && Elements() == old(Elements()) + [x]
      ensures old(PacedFor(count + 1)) ==> Paced()
    {
      hide Doubled, PacedAt, Room, Slice;
      ghost var was := values[..count];
      values[count] := x;
      count := count + 1;
      assert values[..count] == was + [x];
    }

    lemma PacedWork()
      requires Paced()
      ensures work <= 3 * count
    {
      LinearWork(capacity, asked, moved, Slice(width), count, work);
    }

    /** Room for one more in an array that is full. */
    method ExtendByOne(granted: bool) returns (ok: bool)
      requires Valid() && Settled() && count == room
      modifies this`values, this`room, this`capacity, this`next, this`moved, this`asked, this`spent, this`work, next
      ensures Valid() && Settled() && Elements() == old(Elements())
      ensures values == old(values) || values == old(next) || fresh(values)
      ensures !ok ==> Unmoved(old(values), old(room), old(capacity), old(next), old(moved), old(asked), old(work)) && spent == 0
      ensures ok ==> count < room == Room(capacity, count + 1, Slice(width)) && asked == count + 1 && work == old(work) + spent
      ensures ok && old(capacity) == 0 ==> capacity == FIRST && moved == 0 && spent == 0
      ensures ok && old(capacity) > 0 ==>
                Steps(old(capacity), count, old(moved), Slice(width), old(next) != null, capacity, moved, spent)
      ensures old(Fits(count + 1)) && (granted || (old(next) != null && count < 2 * old(capacity))) ==> ok
    {
      hide Slice, Room, Reached, Fits;
      ok := Extend(count, count + 1, granted);
    }

    /** Room for one more. */
    method MakePlace(granted: bool) returns (ok: bool)
      requires Valid() && Settled()
      modifies this`values, this`room, this`capacity, this`next, this`moved, this`asked, this`spent, this`work, next
      ensures Valid() && Settled() && Elements() == old(Elements())
      ensures values == old(values) || values == old(next) || fresh(values)
      ensures ok ==> count < room
      ensures old(Paced()) && !ok ==> Paced() && spent == 0
      ensures old(Paced()) && ok ==> spent <= 2 * Slice(width) + 2 && PacedFor(count + 1)
      ensures count < old(room) ==> ok && Kept(old(values), old(room), old(capacity), old(next), old(moved))
      ensures old(Fits(count + 1)) && (granted || (old(next) != null && count < 2 * old(capacity))) ==> ok
    {
      hide Doubled, PacedAt, Slice, Room;
      spent := 0;
      if count + 1 <= room {
        return true;
      }
      ok := GrowPlace(granted);
    }

    /** The same when there is none left. */
    method GrowPlace(granted: bool) returns (ok: bool)
      requires Valid() && Settled() && count == room
      modifies this`values, this`room, this`capacity, this`next, this`moved, this`asked, this`spent, this`work, next
      ensures Valid() && Settled() && Elements() == old(Elements())
      ensures values == old(values) || values == old(next) || fresh(values)
      ensures ok ==> count < room
      ensures old(Paced()) && !ok ==> Paced() && spent == 0
      ensures old(Paced()) && ok ==> spent <= 2 * Slice(width) + 2 && PacedFor(count + 1)
      ensures old(Fits(count + 1)) && (granted || (old(next) != null && count < 2 * old(capacity))) ==> ok
    {
      hide Doubled, PacedAt, Reached, Slice, Room, Steps, Fits;
      ghost var c, a, m, had := capacity, asked, moved, next != null;
      ok := ExtendByOne(granted);
      if old(Paced()) && ok {
        if c == 0 {
          PacedFirst(Slice(width));
        } else {
          PacedOn(c, a, m, Slice(width), had, capacity, moved, spent);
        }
      }
    }

    /** `xs` pushed one after another, all or none. */
    method Append(xs: seq<T>, granted: bool) returns (ok: bool)
      requires Valid() && Settled()
      modifies this, values, next
      ensures Valid() && Settled()
      ensures Elements() == if ok then old(Elements()) + xs else old(Elements())
      ensures old(count) + |xs| <= old(room) ==> ok && Kept(old(values), old(room), old(capacity), old(next), old(moved))
      ensures old(Fits(count + |xs|)) && (granted || (old(next) != null && old(count) + |xs| <= 2 * old(capacity))) ==> ok
    {
      hide Fits;
      ok := Reserve(count + |xs|, granted);
      if ok && xs != [] {
        ghost var was := Elements();
        PutAll(values, count, xs);
        count := count + |xs|;
        assert Elements() == was + xs;
      }
    }

    /** Room for more than there is, in an array whose user holds the places up to `used`. */
    method ExtendPast(used: nat, total: nat, granted: bool) returns (ok: bool)
      requires Shape() && moved <= count <= used <= room < total && Shadows(used)
      modifies this`values, this`room, this`capacity, this`next, this`moved, this`asked, this`spent, this`work, next
      ensures Shape() && used <= room && moved <= used && Shadows(used) && Places(used) == old(Places(used))
      ensures ok <==> total <= room
      ensures values == old(values) || values == old(next) || fresh(values)
      ensures old(Fits(total)) && (granted || (old(next) != null && total <= 2 * old(capacity))) ==> ok
    {
      hide Room, Slice, Reached, LeastDoubling, Shadows, Places, Fits;
      ok := Extend(used, total, granted);
    }

    lemma ElementsOf(used: nat)
      requires Shape() && count <= used <= capacity
      ensures Elements() == Places(used)[..count]
    {
    }

    lemma ShadowsLess(used: nat, less: nat)
      requires Shape() && less <= used && Shadows(used)
      ensures Shadows(less)
    {
    }

    /** Room for `total` in an array whose user holds places past the count, up to `used`: they move with it,
        but no copy of them holds once it is made. */
    method ReservePast(used: nat, total: nat, granted: bool) returns (ok: bool)
      requires Valid() && count <= used <= room && used <= total
      modifies this`values, this`room, this`capacity, this`next, this`moved, this`asked, this`spent, this`work, next
      ensures Valid() && Elements() == old(Elements()) && count == old(count)
      ensures ok <==> total <= room
      ensures used <= capacity && Places(used) == old(Places(used)) && moved <= used
      ensures values == old(values) || values == old(next) || fresh(values)
      ensures total <= old(room) ==> ok && Kept(old(values), old(room), old(capacity), old(next), Min(old(moved), count))
      ensures old(Fits(total)) && (granted || (old(next) != null && total <= 2 * old(capacity))) ==> ok
    {
      ElementsOf(used);
      spent := 0;
      Unsettle(count);
      if total <= room {
        return true;
      }
      ok := ExtendPast(used, total, granted);
      ElementsOf(used);
      ShadowsLess(used, count);
    }

    /** A place past the count written by its user. */
    method WritePast(i: nat, x: T)
      requires Valid() && count <= i < room
      modifies values
      ensures Valid() && Elements() == old(Elements()) && Places(room) == old(Places(room))[i := x]
    {
      ghost var was := values[..count];
      values[i] := x;
      assert values[..count] == was;
    }

    /** The places up to `size` counted as elements. */
    method Take(size: nat)
      requires Valid() && count <= size <= room
      modifies this`moved, this`count
      ensures Valid() && Settled() && count == size && Elements() == Places(size) && moved == Min(old(moved), old(count))
    {
      Unsettle(count);
      count := size;
    }

    /** The element at `i` changed in place. */
    method Write(i: nat, x: T)
      requires Valid() && i < count
      modifies this`moved, values
      ensures Valid() && Elements() == old(Elements())[i := x] && moved == Min(old(moved), i) && Settled()
    {
      ghost var was := values[..count];
      Unsettle(i);
      values[i] := x;
      assert values[..count] == was[i := x];
    }

    /** The elements from `size` on dropped. */
    method Truncate(size: nat)
      requires Valid() && size <= count
      modifies this`moved, this`count
      ensures Valid() && Settled() && Elements() == old(Elements())[..size] && moved == Min(old(moved), size)
    {
      Unsettle(size);
      count := size;
    }

    /** The storage past what the elements need given back, with the storage ahead; none when no less would do. */
    method Shrink(granted: bool)
      requires Valid()
      modifies this`values, this`room, this`capacity, this`next, this`moved, this`asked, this`spent, this`work
      ensures Valid() && Elements() == old(Elements()) && capacity <= old(capacity)
      ensures old(Settled()) ==> Settled()
      ensures capacity == old(capacity) ==> Kept(old(values), old(room), old(capacity), old(next), old(moved))
      ensures capacity < old(capacity) ==> capacity == LeastDoubling(FIRST, count) && next == null
      ensures granted && LeastDoubling(FIRST, count) < old(capacity) ==> capacity < old(capacity)
    {
      hide Slice, Room, LeastDoubling;
      spent := 0;
      var least := LeastFor(count);
      if values == null || least >= capacity {
        return;
      }
      Fit(least, granted);
    }

    /** The elements moved to storage of `least` places, fewer than there are. */
    method Fit(least: nat, granted: bool)
      requires Valid() && values != null && count <= least < capacity && FIRST <= least
      modifies this`values, this`room, this`capacity, this`next, this`moved, this`asked, this`spent, this`work
      ensures Valid() && Elements() == old(Elements()) && (old(Settled()) ==> Settled())
      ensures capacity == old(capacity) ==> Kept(old(values), old(room), old(capacity), old(next), old(moved))
      ensures capacity < old(capacity) ==> capacity == least && next == null
      ensures capacity <= old(capacity) && (granted ==> capacity < old(capacity))
    {
      hide Slice;
      var storage := Allocate(least, granted);
      if storage == null {
        return;
      }
      CopySlice(values, storage, 0, count);
      spent := count;
      work := work + spent;
      asked := count;
      assert storage[..count] == values[..count];
      values, capacity, next, moved := storage, least, null, 0;
      room := Room(least, count, Slice(width));
    }

    /** The least capacity an array that holds `held` has. */
    static method LeastFor(held: nat) returns (least: nat)
      ensures least == LeastDoubling(FIRST, held) && least >= FIRST && least >= held
    {
      least := FIRST;
      while least < held
        invariant least >= FIRST && LeastDoubling(least, held) == LeastDoubling(FIRST, held)
        decreases held - least
      {
        least := least * 2;
      }
    }

    /** The array emptied, its storage given back. */
    method Free()
      requires Shape()
      modifies this
      ensures Valid() && Settled() && Elements() == [] && Paced()
    {
      values, count, room, capacity, next, moved := null, 0, 0, 0, null, 0;
      asked, spent, work := 0, 0, 0;
    }
  }
}
