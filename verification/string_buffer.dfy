/** A growing string of bytes with a zero at its end, which keeps what it holds when it cannot grow. */
module StringBuffers {
  import opened Basics
  import opened AheadArrays

  /** The most bytes a buffer's content may hold. */
  const LIMIT: nat := INT32_MAX / 2

  const BACKSLASH: Byte := 92

  predicate IsWhitespace(b: Byte) {
    b == 32 || b == 9 || b == 10 || b == 13
  }

  predicate IsPunctuation(b: Byte) {
    33 <= b <= 47 || 58 <= b <= 64 || 91 <= b <= 96 || 123 <= b <= 126
  }

  /** The room a buffer is given for `target` bytes: half as many more, in eights, but none past the limit and a zero. */
  function Oversized(target: nat): (n: nat)
    requires target <= LIMIT
    ensures target < n <= LIMIT + 1 && (n < LIMIT + 1 ==> n % 8 == 0 && n - 8 < target + target / 2 + 1 <= n)
    ensures n == LIMIT + 1 ==> target + target / 2 + 1 > LIMIT + 1 - 8
  {
    var n: nat := (target + target / 2 + 1 + 7) / 8 * 8;
    assert target + target / 2 + 1 + 7 <= INT32_MAX;
    if n > LIMIT + 1 then LIMIT + 1 else n
  }

  /** GROWTH IS LINEAR: a growth moves what the buffer holds, and pays for it with the room it makes. Short of the limit
      all the moves together are no more than twice the room. */
  lemma GrowthPays(room: nat, size: nat, target: nat, work: nat)
    requires size <= room <= target <= LIMIT && work <= 2 * room
    ensures var more := Oversized(target); work + size <= (if more < LIMIT + 1 then 2 * more else 3 * more)
  {
  }

  /** The bytes of the two classes. */
  lemma Classes(b: Byte)
    ensures IsPunctuation(b) <==> (b as char) in "!\"#$%&'()*+,-./:;<=>?@[\\]^_`{|}~"
    ensures IsWhitespace(b) <==> (b as char) in " \t\n\r"
  {
  }

  // ---------- What the operations in place leave ----------

  function TrimmedEnd(s: seq<Byte>): seq<Byte> {
    if s != [] && IsWhitespace(s[|s| - 1]) then TrimmedEnd(s[..|s| - 1]) else s
  }

  function TrimmedFront(s: seq<Byte>): seq<Byte> {
    if s != [] && IsWhitespace(s[0]) then TrimmedFront(s[1..]) else s
  }

  /** A text without the backslashes before its punctuation. */
  function Unescaped(s: seq<Byte>): (r: seq<Byte>)
    ensures |r| <= |s|
  {
    if s == [] then []
    else if s[0] == BACKSLASH && |s| > 1 && IsPunctuation(s[1]) then [s[1]] + Unescaped(s[2..])
    else [s[0]] + Unescaped(s[1..])
  }

  /** A text with a backslash before each of its punctuation. */
  ghost function Escaped(s: seq<Byte>): seq<Byte>
  {
    if s == [] then [] else (if IsPunctuation(s[0]) then [BACKSLASH, s[0]] else [s[0]]) + Escaped(s[1..])
  }

  /** A TEXT ESCAPED AND UNESCAPED IS THE TEXT. */
  lemma {:induction false} EscapedBack(s: seq<Byte>)
    ensures Unescaped(Escaped(s)) == s
  {
    if s != [] {
      EscapedBack(s[1..]);
      var part := if IsPunctuation(s[0]) then [BACKSLASH, s[0]] else [s[0]];
      assert Escaped(s)[|part|..] == Escaped(s[1..]);
    }
  }

  ghost function Held(storage: array?<Byte>): set<object> {
    if storage == null then {} else {storage}
  }

  /** A buffer: its storage, none at first, and the bytes it holds; `moving` when it grows ahead. */
  class StringBuffer {
    var plain: array<Byte>
    var moving: AheadArray?<Byte>
    var size: nat
    var oom: bool

    /** The bytes its storage can come to hold, the zero among them, before it asks for more. */
    function Room(): nat
      reads this, moving
    {
      if moving != null then moving.room else plain.Length
    }

    /** The storage is as the fields say. */
    ghost predicate Sound()
      reads this, moving, if moving != null then {moving.values, moving.next} else {}
    {
      && size <= LIMIT && Room() <= LIMIT + 1
      && (Room() == 0 ==> size == 0) && (Room() > 0 ==> size < Room())
      && (moving != null ==>
            && moving.width == 1 && moving.Valid() && moving.Settled() && moving.count == size
            && moving.values != null && moving.capacity <= LIMIT + 1 && moving.room > 0)
    }

    ghost function Cells(): (cells: seq<Byte>)
      requires Sound()
      reads this, moving, plain, if moving != null then {moving.values, moving.next} else {}
      ensures |cells| >= Room()
    {
      if moving != null then moving.values[..] else plain[..]
    }

    /** The invariant: a zero ends the bytes held. */
    ghost predicate Valid()
      reads this, moving, plain, if moving != null then {moving.values, moving.next} else {}
    {
      Sound() && (Room() > 0 ==> Cells()[size] == 0)
    }

    /** The bytes held. */
    ghost function Bytes(): (s: seq<Byte>)
      requires Sound()
      reads this, moving, plain, if moving != null then {moving.values, moving.next} else {}
      ensures |s| == size
    {
      Cells()[..size]
    }

    ghost function Repr(): set<object>
      reads this, moving
    {
      if moving == null then {this, plain} else {this, plain, moving as object} + Held(moving.values) + Held(moving.next)
    }

    constructor ()
      ensures Valid() && Bytes() == [] && !oom && Room() == 0 && fresh(Repr())
    {
      plain, moving, size, oom := new Byte[0], null, 0, false;
    }

    /** `data` and a zero written past the bytes held, where there is room. */
    method Store(data: seq<Byte>)
      requires Sound() && size + |data| < Room()
      modifies Repr()
      ensures Valid() && Bytes() == old(Bytes()) + data && oom == old(oom) && Room() == old(Room())
      ensures moving == old(moving) && plain == old(plain) && Repr() == old(Repr()) && Capacity() == old(Capacity())
      ensures size == old(size) + |data|
    {
      if moving == null {
        ghost var was := Bytes();
        PutAll(plain, size, data + [0]);
        size := size + |data|;
        assert Bytes() == was + data;
      } else {
        StoreMoving(data);
      }
    }

    method StoreMoving(data: seq<Byte>)
      requires Sound() && size + |data| < Room() && moving != null
      modifies this`size, moving`moved, moving`count, moving.values
      ensures Valid() && Bytes() == old(Bytes()) + data && oom == old(oom) && Room() == old(Room())
      ensures moving.values == old(moving.values) && moving.next == old(moving.next)
    {
      hide Slice;
      ghost var was := Bytes();
      PutAll(moving.values, size, data + [0]);
      size := size + |data|;
      moving.Take(size);
      assert Bytes() == was + data;
    }
  
    /** Room for `target` bytes and a zero, or the buffer poisoned; what it holds stays. */
    method Grow(target: int, granted: bool)
      requires Valid()
      modifies this
      ensures Valid() && Bytes() == old(Bytes()) && fresh(Repr() - old(Repr()))
      ensures old(oom) ==> oom
      ensures !oom ==> 0 < target < Room()
      ensures oom && !old(oom) ==> Room() == old(Room())
      ensures target < old(Room()) || oom ==> Repr() == old(Repr()) && Room() == old(Room())
      ensures !oom && target >= old(Room()) ==> moving == null && target <= LIMIT && Room() == Oversized(target)
      ensures !old(oom) && 0 < target <= LIMIT && (granted || target < old(Room())) ==> !oom
    {
      if target <= 0 {
        oom := true;
        return;
      }
      if oom || target < Room() {
        return;
      }
      if target > LIMIT {
        oom := true;
        return;
      }
      MoveWhole(target, granted);
    }

    /** The buffer moved to storage of its own size for `target` bytes. */
    method MoveWhole(target: nat, granted: bool)
      requires Valid() && !oom && Room() <= target <= LIMIT
      modifies this
      ensures Valid() && Bytes() == old(Bytes()) && fresh(Repr() - old(Repr())) && (granted ==> !oom)
      ensures oom ==> Repr() == old(Repr()) && Room() == old(Room())
      ensures !oom ==> moving == null && Room() == Oversized(target)
    {
      hide Oversized;
      var storage := Allocate(Oversized(target), granted);
      if storage == null {
        oom := true;
        return;
      }
      CopyOut(storage);
      MoveTo(storage);
    }

    /** The bytes held copied to other storage. */
    method CopyOut(storage: array<Byte>)
      requires Valid() && size < storage.Length && storage !in Repr()
      modifies storage
      ensures storage[..size] == Bytes() && storage[size] == 0
      ensures Valid() && Bytes() == old(Bytes())
    {
      if moving != null {
        CopySlice(moving.values, storage, 0, size);
        assert storage[..size] == moving.values[..size];
      } else {
        CopySlice(plain, storage, 0, size);
        assert storage[..size] == plain[..size];
      }
      storage[size] := 0;
    }

    /** The buffer moved to storage that holds its bytes. */
    method MoveTo(storage: array<Byte>)
      requires Valid() && size < storage.Length <= LIMIT + 1 && storage[..size] == Bytes() && storage[size] == 0
      modifies this`plain, this`moving
      ensures Valid() && Bytes() == old(Bytes()) && moving == null && plain == storage
    {
      plain, moving := storage, null;
    }

    /** The append that needs growth, or meets a poisoned buffer. */
    method PutGrown(data: seq<Byte>, granted: bool)
      requires Valid() && data != []
      modifies Repr()
      ensures Valid() && fresh(Repr() - old(Repr())) && (old(oom) ==> oom)
      ensures Bytes() == if oom then old(Bytes()) else old(Bytes()) + data
      ensures Poisons(old(oom), old(size), old(Room()), |data|, granted)
      ensures !oom && old(size) + |data| >= old(Room()) ==> moving == null && Room() == Oversized(size)
    {
      if |data| > LIMIT - size {
        oom := true;
        return;
      }
      var target := size + |data|;
      if target >= Room() {
        Grow(target, granted);
      }
      if oom {
        return;
      }
      Store(data);
    }

    /** `data` put at the end, or the buffer poisoned with what it held. */
    method Put(data: seq<Byte>, granted: bool)
      requires Valid()
      modifies Repr()
      ensures Valid() && fresh(Repr() - old(Repr())) && (old(oom) ==> oom)
      ensures Bytes() == if oom then old(Bytes()) else old(Bytes()) + data
      ensures Poisons(old(oom), old(size), old(Room()), |data|, granted)
      ensures !oom && data != [] && old(size) + |data| >= old(Room()) ==> moving == null && Room() == Oversized(size)
    {
      if |data| <= 0 {
        assert old(Bytes()) + data == old(Bytes());
        return;
      }
      if |data| < Room() - size && !oom {
        Store(data);
        return;
      }
      PutGrown(data, granted);
    }

    /** An append of `added` bytes to a buffer of `held` and `room` leaves one that was poisoned so, poisons one it would
        take past the limit, and otherwise one whose room it does not fit, when storage is refused. */
    ghost predicate Poisons(was: bool, held: nat, room: nat, added: nat, granted: bool)
      reads this
    {
      && (was ==> oom)
      && (held + added > LIMIT ==> oom)
      && (!was && (added == 0 || held + added < room || (granted && held + added <= LIMIT)) ==> !oom)
    }

    method PutC(b: Byte, granted: bool)
      requires Valid()
      modifies Repr()
      ensures Valid() && fresh(Repr() - old(Repr())) && (old(oom) ==> oom)
      ensures Bytes() == if oom then old(Bytes()) else old(Bytes()) + [b]
      ensures Poisons(old(oom), old(size), old(Room()), 1, granted)
      ensures !oom && old(size) + 1 >= old(Room()) ==> moving == null && Room() == Oversized(size)
    {
      if size + 1 < Room() && !oom {
        Store([b]);
        return;
      }
      PutGrown([b], granted);
    }

    /** `data` put at the end of a buffer that grows ahead, once it holds more than two slices. */
    method PutAhead(data: seq<Byte>, granted: bool)
      requires Valid()
      modifies Repr()
      ensures Valid() && fresh(Repr() - old(Repr())) && (old(oom) ==> oom)
      ensures Bytes() == if oom then old(Bytes()) else old(Bytes()) + data
      ensures Poisons(old(oom), old(size), old(Room()), |data|, granted)
      ensures !oom && data != [] && old(size) + |data| >= old(Room()) ==>
                Placed(old(moving), old(Capacity()), old(MovesAhead(|data|)))
    {
      if |data| <= 0 {
        assert old(Bytes()) + data == old(Bytes());
        return;
      }
      if |data| < Room() - size && !oom {
        Store(data);
        return;
      }
      PutAheadGrown(data, granted);
    }

    /** The places of the storage. */
    ghost function Capacity(): nat
      reads this, moving
    {
      if moving != null then moving.capacity else plain.Length
    }

    /** Whether the buffer grows ahead for `added` bytes more: it holds more than two slices, or did so before, and twice
        its storage, or as often as it takes, stays within the limit. */
    ghost predicate MovesAhead(added: nat)
      reads this, moving
    {
      && (moving != null || Room() > 2 * Slice(1))
      && (Capacity() > 0 ==> LeastDoubling(Capacity(), size + added + 1) <= LIMIT + 1)
    }

    /** Storage of `had` places grown: `ahead`, the same array's or a first one's, or whole. */
    ghost predicate Placed(was: AheadArray?<Byte>, had: nat, ahead: bool)
      reads this, moving
    {
      if ahead && had > 0 then
        && moving != null && (was != null ==> moving == was)
        && moving.capacity == LeastDoubling(had, size + 1)
        && size + 1 <= moving.capacity && Room() == AheadArrays.Room(moving.capacity, size + 1, Slice(1))
      else moving == null && size <= LIMIT && Room() == Oversized(size)
    }

    method PutAheadGrown(data: seq<Byte>, granted: bool)
      requires Valid() && data != [] && (!oom ==> size + |data| >= Room())
      modifies Repr()
      ensures Valid() && fresh(Repr() - old(Repr())) && (old(oom) ==> oom)
      ensures Bytes() == if oom then old(Bytes()) else old(Bytes()) + data
      ensures Poisons(old(oom), old(size), old(Room()), |data|, granted)
      ensures !oom ==> Placed(old(moving), old(Capacity()), old(MovesAhead(|data|)))
    {
      hide Slice, LeastDoubling, Oversized, Reached, Pace, Min, SliceOf;
      if moving == null && Room() <= 2 * Slice(1) {
        PutGrown(data, granted);
        return;
      }
      if oom {
        return;
      }
      if |data| > LIMIT - size {
        oom := true;
        return;
      }
      PutMoving(data, granted);
    }

    /** `data` put in a buffer that grows ahead, or starts to, or past the limit moves whole. */
    method PutMoving(data: seq<Byte>, granted: bool)
      requires Valid() && data != [] && !oom && 0 < Room() <= size + |data| <= LIMIT
      requires moving != null || Room() > 2 * Slice(1)
      modifies Repr()
      ensures Valid() && fresh(Repr() - old(Repr())) && (granted ==> !oom)
      ensures Bytes() == if oom then old(Bytes()) else old(Bytes()) + data
      ensures !oom ==> Placed(old(moving), old(Capacity()), old(MovesAhead(|data|)))
    {
      hide Slice, LeastDoubling, Oversized, Reached, Pace, Min, SliceOf, AheadArrays.Room, Placed, Ahead, Poisons, Cells, MovesAhead, Bytes, Capacity;
      MovesIs(|data|);
      LargerThan(Capacity(), size + |data| + 1);
      var total := size + |data| + 1;
      var capacity := if moving != null then moving.capacity else plain.Length;
      var larger := capacity;
      while larger < total
        invariant larger > 0 && LeastDoubling(larger, total) == LeastDoubling(capacity, total)
        decreases total - larger
        modifies {}
      {
        DoublesMore(larger, total);
        larger := larger * 2;
      }
      DoublesNone(larger, total);
      if larger > LIMIT + 1 {
        PutWhole(data, granted);
      } else {
        PutStepped(data, larger, granted);
      }
    }

    lemma MovesIs(added: nat)
      requires Valid() && (moving != null || Room() > 2 * Slice(1)) && 0 < Room() <= size + added
      ensures Capacity() > 0 && Capacity() == if moving != null then moving.capacity else plain.Length
      ensures MovesAhead(added) <==> LeastDoubling(Capacity(), size + added + 1) <= LIMIT + 1
    {
    }

    lemma LargerThan(capacity: nat, total: nat)
      requires capacity > 0
      ensures LeastDoubling(capacity, total) >= total
    {
    }

    /** The buffer moved whole, as its storage ahead would pass the limit. */
    method PutWhole(data: seq<Byte>, granted: bool)
      requires Valid() && data != [] && !oom && 0 < Room() <= size + |data| <= LIMIT && !MovesAhead(|data|)
      modifies Repr()
      ensures Valid() && fresh(Repr() - old(Repr())) && (granted ==> !oom)
      ensures Bytes() == if oom then old(Bytes()) else old(Bytes()) + data
      ensures !oom ==> Placed(old(moving), old(Capacity()), false)
    {
      hide Slice, LeastDoubling, Oversized, Reached, Pace, Min, SliceOf, AheadArrays.Room, Placed, Ahead, Poisons;
      ghost var was, capacity, held, room := moving, Capacity(), size, Room();
      PutGrown(data, granted);
      PoisonedWhen(held, room, |data|, granted);
      if !oom {
        PlacedWhole(was, capacity, false);
      }
    }

    /** The bytes put where the array ahead made room for them. */
    method PutStepped(data: seq<Byte>, larger: nat, granted: bool)
      requires Valid() && data != [] && !oom && 0 < Room() <= size + |data| && size + |data| + 1 <= larger <= LIMIT + 1
      requires moving != null ==> larger == LeastDoubling(moving.capacity, size + |data| + 1)
      requires Capacity() > 0 && larger == LeastDoubling(Capacity(), size + |data| + 1)
      modifies Repr()
      ensures Valid() && fresh(Repr() - old(Repr())) && (granted ==> !oom)
      ensures Bytes() == if oom then old(Bytes()) else old(Bytes()) + data
      ensures !oom ==> Placed(old(moving), old(Capacity()), true)
    {
      hide *;
      ghost var was, capacity, total := moving, Capacity(), size + |data| + 1;
      MoveAhead(larger, size + |data| + 1, granted);
      if oom {
        return;
      }
      StoreAhead(data, was, larger, total);
      PlacedAhead(was, capacity, true, larger);
    }

    /** Room for `total`, ahead of the growth. */
    method MoveAhead(larger: nat, total: nat, granted: bool)
      requires Valid() && !oom && size < total <= larger <= LIMIT + 1 && Room() < total
      requires moving != null ==> larger == LeastDoubling(moving.capacity, total)
      modifies Repr()
      ensures Sound() && Bytes() == old(Bytes()) && fresh(Repr() - old(Repr())) && size == old(size)
      ensures if oom then Valid() else total <= Room()
      ensures (granted ==> !oom) && (!oom ==> Ahead(old(moving), larger, total))
    {
      if moving != null {
        ExtendMoving(total, granted);
      } else {
        StartMoving(larger, total, granted);
      }
    }

    lemma PlacedWhole(was: AheadArray?<Byte>, had: nat, ahead: bool)
      requires !ahead && moving == null && size <= LIMIT && Room() == Oversized(size)
      ensures Placed(was, had, ahead)
    {
    }

    lemma PlacedAhead(was: AheadArray?<Byte>, had: nat, ahead: bool, larger: nat)
      requires ahead && had > 0 && Ahead(was, larger, size + 1) && larger == LeastDoubling(had, size + 1)
      ensures Placed(was, had, ahead)
    {
    }

    lemma PoisonedWhen(held: nat, room: nat, added: nat, granted: bool)
      requires Poisons(false, held, room, added, granted)
      ensures granted && held + added <= LIMIT ==> !oom
    {
    }

    /** `data` stored where room was just made for it. */
    method StoreAhead(data: seq<Byte>, ghost was: AheadArray?<Byte>, ghost larger: nat, ghost total: nat)
      requires Sound() && size + |data| < Room() && Ahead(was, larger, total)
      modifies Repr()
      ensures Valid() && Bytes() == old(Bytes()) + data && oom == old(oom) && Repr() == old(Repr())
      ensures Ahead(was, larger, total) && size == old(size) + |data|
    {
      hide Slice, AheadArrays.Room;
      Store(data);
    }

    ghost predicate Ahead(was: AheadArray?<Byte>, larger: nat, total: nat)
      reads this, moving
    {
      && moving != null && (was != null ==> moving == was) && moving.capacity == larger
      && total <= larger && Room() == AheadArrays.Room(larger, total, Slice(1))
    }

    /** The buffer starts to grow ahead: it moves whole once more. */
    method StartMoving(larger: nat, total: nat, granted: bool)
      requires Valid() && moving == null && !oom && size < total <= larger <= LIMIT + 1
      modifies this
      ensures Sound() && Bytes() == old(Bytes()) && fresh(Repr() - old(Repr())) && size == old(size)
      ensures if oom then Valid() else total <= Room()
      ensures (granted ==> !oom) && (!oom ==> Ahead(null, larger, total))
    {
      hide Slice;
      var storage := Allocate(larger, granted);
      if storage == null {
        oom := true;
        return;
      }
      ghost var was := Bytes();
      CopySlice(plain, storage, 0, size);
      assert storage[..size] == plain[..size];
      var elements := storage[..size];
      var grown := new AheadArray<Byte>.Holding(elements, storage, total);
      moving := grown;
      assert Bytes() == was;
    }

    /** Room for `total` in a buffer that grows ahead. */
    method ExtendMoving(total: nat, granted: bool)
      requires Valid() && moving != null && !oom && Room() < total && LeastDoubling(moving.capacity, total) <= LIMIT + 1
      modifies this`oom, moving, moving.next
      ensures Sound() && Bytes() == old(Bytes()) && fresh(Repr() - old(Repr())) && size == old(size)
      ensures if oom then Valid() else total <= Room()
      ensures (granted ==> !oom) && (!oom ==> Ahead(moving, LeastDoubling(old(moving.capacity), total), total))
    {
      hide Slice, LeastDoubling, Pace, Reached;
      ghost var was := Bytes();
      DoublesNone(moving.capacity, total);
      assert was == moving.Places(size);
      var ok := moving.Extend(size, total, granted);
      if !ok {
        oom := true;
      }
      assert Bytes() == moving.Places(size);
    }
  
    // ---------- In place ----------

    function CellAt(i: nat): Byte
      requires Sound() && i < Room()
      reads this, moving, plain, if moving != null then {moving.values, moving.next} else {}
      ensures CellAt(i) == Cells()[i]
    {
      if moving != null then moving.values[i] else plain[i]
    }

    /** What was copied ahead of the bytes from `first` on is void. */
    method Unsettle(first: nat)
      requires Sound()
      modifies if moving != null then {moving} else {}
      ensures Sound() && Cells() == old(Cells()) && Settles(first)
      ensures moving != null ==> moving.values == old(moving.values) && moving.next == old(moving.next) && moving.room == old(moving.room)
    {
      if moving != null {
        moving.Unsettle(first);
      }
    }

    /** No byte from `first` on was copied ahead. */
    ghost predicate Settles(first: nat)
      reads this, moving
    {
      moving != null ==> moving.moved <= first
    }

    /** A byte written where no copy holds. */
    method WriteAt(i: nat, b: Byte)
      requires Sound() && i < Room() && Settles(i)
      modifies plain, if moving != null then {moving.values} else {}
      ensures Sound() && Cells() == old(Cells())[i := b]
    {
      if moving != null {
        moving.values[i] := b;
      } else {
        plain[i] := b;
      }
    }

    /** Fewer bytes held. */
    method SetSize(n: nat)
      requires Sound() && n <= size && Settles(n)
      modifies this`size, if moving != null then {moving} else {}
      ensures Sound() && size == n && Cells() == old(Cells()) && Settles(n)
      ensures moving != null ==> moving.values == old(moving.values) && moving.next == old(moving.next) && moving.room == old(moving.room)
    {
      if moving != null {
        moving.Truncate(n);
      }
      size := n;
    }

    method Clear()
      requires Valid()
      modifies Repr()
      ensures Valid() && Bytes() == [] && !oom && Repr() == old(Repr())
    {
      Unsettle(0);
      SetSize(0);
      oom := false;
      if Room() > 0 {
        WriteAt(0, 0);
      }
    }

    method Truncate(len: int)
      requires Valid()
      modifies Repr()
      ensures Valid() && oom == old(oom) && Repr() == old(Repr())
      ensures Bytes() == if len >= old(size) then old(Bytes()) else old(Bytes())[..if len < 0 then 0 else len]
    {
      var n: nat := if len < 0 then 0 else len;
      if n < size {
        Cut(n);
      }
    }

    /** The bytes from `n` on dropped, and a zero put there. */
    method Cut(n: nat)
      requires Sound() && n <= size && Room() > 0
      modifies this`size, if moving != null then {moving} else {}, plain, if moving != null then {moving.values} else {}
      ensures Valid() && Bytes() == old(Bytes())[..n] && Repr() == old(Repr()) && Room() == old(Room())
    {
      ghost var was := Cells();
      Unsettle(n);
      SetSize(n);
      WriteAt(n, 0);
      assert Cells()[..n] == was[..size][..n];
    }

    /** The first `n` bytes dropped. A buffer that never had storage has no byte to write its zero to, and `past` says
        that it is written all the same. */
    method Drop(n: int) returns (past: bool)
      requires Valid()
      modifies Repr()
      ensures Valid() && oom == old(oom) && Repr() == old(Repr()) && Room() == old(Room())
      ensures Bytes() == old(Bytes())[if n < 0 then 0 else if n < old(size) then n else old(size)..]
      ensures past <==> n > 0 && old(Room()) == 0
    {
      past := false;
      if n > 0 {
        var gone: nat := if n > size then size else n;
        ghost var was := Bytes();
        var left := size - gone;
        Unsettle(0);
        MoveDown(gone, left);
        if Room() > 0 {
          Cut(left);
        } else {
          past := true;
        }
        assert Bytes() == was[gone..];
      }
    }

    /** `left` bytes from byte `gone` on moved to the front. */
    method MoveDown(gone: nat, left: nat)
      requires Sound() && Settles(0) && gone + left == size
      modifies plain, if moving != null then {moving.values} else {}
      ensures Sound() && Settles(0) && Cells()[..left] == old(Cells())[gone..size]
    {
      hide Shifted;
      ghost var was := Cells();
      ShiftedStarts(was, gone);
      for i := 0 to left
        invariant Sound() && Settles(0) && Shifted(was, Cells(), i, gone)
        invariant plain == old(plain) && moving == old(moving) && size == old(size) && Room() == old(Room())
        invariant moving != null ==> moving.values == old(moving.values)
      {
        ShiftedStep(was, Cells(), i, gone);
        WriteAt(i, CellAt(gone + i));
      }
      ShiftedEnds(was, Cells(), left, gone);
    }

    /** The whitespace at the end dropped. */
    method TrimEnd()
      requires Valid()
      modifies Repr()
      ensures Valid() && oom == old(oom) && Repr() == old(Repr()) && Bytes() == TrimmedEnd(old(Bytes()))
    {
      if size == 0 {
        TrimmedEndStep(Bytes());
        return;
      }
      var n := TextEnd();
      Cut(n);
    }

    /** Where the bytes but the whitespace at the end end. */
    method TextEnd() returns (n: nat)
      requires Valid() && size > 0
      ensures n <= size && Bytes()[..n] == TrimmedEnd(Bytes())
    {
      hide TrimmedEnd;
      ghost var was := Bytes();
      assert was[..size] == was;
      n := size;
      while n > 0 && IsWhitespace(CellAt(n - 1))
        invariant n <= size && TrimmedEnd(was[..n]) == TrimmedEnd(was)
      {
        assert was[..n][n - 1] == was[n - 1];
        TrimmedEndStep(was[..n]);
        assert was[..n][..n - 1] == was[..n - 1];
        n := n - 1;
      }
      assert n > 0 ==> was[..n][n - 1] == was[n - 1];
      TrimmedEndStep(was[..n]);
    }

    /** The whitespace at both ends dropped. */
    method Trim()
      requires Valid()
      modifies Repr()
      ensures Valid() && oom == old(oom) && Repr() == old(Repr()) && Bytes() == TrimmedEnd(TrimmedFront(old(Bytes())))
    {
      hide TrimmedFront, TrimmedEnd;
      TrimmedFrontStep(Bytes());
      TrimmedEndStep(Bytes());
      if size == 0 {
        return;
      }
      var i := TextStart();
      var _ := Drop(i);
      TrimEnd();
    }

    /** Where they begin past the whitespace at the front. */
    method TextStart() returns (i: nat)
      requires Valid()
      ensures i <= size && Bytes()[i..] == TrimmedFront(Bytes())
    {
      hide TrimmedFront;
      ghost var was := Bytes();
      assert was[0..] == was;
      i := 0;
      while i < size && IsWhitespace(CellAt(i))
        invariant i <= size && TrimmedFront(was[i..]) == TrimmedFront(was)
      {
        TrimmedFrontStep(was[i..]);
        assert was[i..][1..] == was[i + 1..];
        i := i + 1;
      }
      TrimmedFrontStep(was[i..]);
    }

    /** The backslashes before punctuation removed, in place. */
    method Unescape()
      requires Valid()
      modifies Repr()
      ensures Valid() && oom == old(oom) && Repr() == old(Repr()) && Bytes() == Unescaped(old(Bytes()))
    {
      Unsettle(0);
      var w := UnescapeBytes();
      Truncate(w);
    }

    method UnescapeBytes() returns (w: nat)
      requires Valid() && Settles(0)
      modifies plain, if moving != null then {moving.values} else {}
      ensures Valid() && w <= size && Bytes()[..w] == Unescaped(old(Bytes())) && Room() == old(Room())
    {
      hide Unescaped, Unescaping;
      ghost var was := Bytes();
      var r := 0;
      w := 0;
      UnescapingStarts(was);
      while r < size
        invariant w <= r <= size == |was| && Valid() && Settles(0)
        invariant Unescaping(was, Bytes(), r, w)
      {
        var escaped := CellAt(r) == BACKSLASH && IsPunctuation(CellAt(r + 1));
        EndsInZero(r, escaped);
        UnescapingStep(was, Bytes(), r, w, escaped);
        if escaped {
          r := r + 1;
        }
        KeepByte(w, r);
        w := w + 1;
        r := r + 1;
      }
      UnescapingEnds(was, Bytes(), r, w);
    }

    /** The zero is no punctuation, so the last byte is not taken to escape it. */
    lemma EndsInZero(r: nat, escaped: bool)
      requires Valid() && r < size && (escaped <==> CellAt(r) == BACKSLASH && IsPunctuation(CellAt(r + 1)))
      ensures escaped <==> Bytes()[r] == BACKSLASH && r + 1 < size && IsPunctuation(Bytes()[r + 1])
    {
    }

    /** Byte `r` written at `w`, at or before it. */
    method KeepByte(w: nat, r: nat)
      requires Valid() && w <= r < size && Settles(0)
      modifies plain, if moving != null then {moving.values} else {}
      ensures Valid() && Settles(0) && Bytes() == old(Bytes())[w := old(Bytes())[r]]
    {
      WriteAt(w, CellAt(r));
    }

    /** What the buffer holds and its zero, and the buffer empty again; none when it lost content, or no storage for it can
        be had. */
    method Detach(granted: bool) returns (data: Option<seq<Byte>>)
      requires Valid()
      modifies this
      ensures Valid() && Bytes() == [] && !oom && fresh(Repr() - old(Repr()))
      ensures old(oom) ==> data == None
      ensures data.Some? ==> data.value == old(Bytes()) + [0]
      ensures !old(oom) && (granted || (old(moving) == null && old(Room()) > 0)) ==> data.Some?
    {
      ghost var was := Bytes();
      data := None;
      if !oom {
        var own := true;
        if Room() == 0 {
          own := HasStorage(granted);
          data := if own then Some([0]) else None;
          return;
        }
        if moving != null {
          own := HasStorage(granted);
        }
        if own {
          data := Some((if moving != null then moving.values[..size + 1] else plain[..size + 1]));
          assert data.value == was + [0];
        }
      }
      plain, moving, size, oom := new Byte[0], null, 0, false;
    }

    /** A buffer whose bytes `from` holds first takes its storage. */
    method TakeStorage(from: StringBuffer)
      requires Valid() && from.Valid() && this != from && from !in Repr() && this !in from.Repr()
      requires size <= from.size && from.Bytes()[..size] == Bytes() && from.Room() > 0
      modifies this, from, from.Repr()
      ensures Valid() && Bytes() == old(Bytes()) && oom == old(oom) && from.Valid() && from.Bytes() == [] && !from.oom
      ensures Room() == old(from.Room())
    {
      var n := size;
      Swap(from);
      Cut(n);
    }

    method Swap(from: StringBuffer)
      requires from.Valid() && this != from && this !in from.Repr()
      modifies this, from
      ensures Valid() && Bytes() == old(from.Bytes()) && oom == old(oom) && Room() == old(from.Room()) && size == old(from.size)
      ensures from.Valid() && from.Bytes() == [] && !from.oom && fresh(from.plain) && from.moving == null
      ensures plain == old(from.plain) && moving == old(from.moving)
    {
      plain, moving, size := from.plain, from.moving, from.size;
      from.plain, from.moving, from.size, from.oom := new Byte[0], null, 0, false;
    }
  }

  lemma TrimmedEndStep(s: seq<Byte>)
    ensures TrimmedEnd(s) == if s != [] && IsWhitespace(s[|s| - 1]) then TrimmedEnd(s[..|s| - 1]) else s
  {
  }

  lemma TrimmedFrontStep(s: seq<Byte>)
    ensures TrimmedFront(s) == if s != [] && IsWhitespace(s[0]) then TrimmedFront(s[1..]) else s
  {
  }

  /** The first `i` bytes are those from `gone` on, and the rest as they were. */
  ghost predicate Shifted(was: seq<Byte>, cells: seq<Byte>, i: nat, gone: nat)
  {
    && gone + i <= |was| == |cells| && cells[..i] == was[gone..gone + i] && cells[i..] == was[i..]
  }

  lemma ShiftedStarts(was: seq<Byte>, gone: nat)
    requires gone <= |was|
    ensures Shifted(was, was, 0, gone)
  {
  }

  lemma ShiftedStep(was: seq<Byte>, cells: seq<Byte>, i: nat, gone: nat)
    requires Shifted(was, cells, i, gone) && gone + i < |was|
    ensures |cells| == |was| && Shifted(was, cells[i := cells[gone + i]], i + 1, gone)
  {
    assert cells[gone + i] == cells[i..][gone] == was[gone + i];
    var more := cells[i := cells[gone + i]];
    assert more[..i + 1] == cells[..i] + [was[gone + i]];
    assert more[i + 1..] == cells[i..][1..] == was[i + 1..];
  }

  lemma ShiftedEnds(was: seq<Byte>, cells: seq<Byte>, left: nat, gone: nat)
    requires Shifted(was, cells, left, gone)
    ensures left <= |cells| && gone + left <= |was| && cells[..left] == was[gone..gone + left]
  {
  }

  /** The first `w` bytes are the text before byte `r` unescaped, and those from `r` on as they were. */
  ghost predicate Unescaping(was: seq<Byte>, bytes: seq<Byte>, r: nat, w: nat)
  {
    && w <= r <= |was| == |bytes| && bytes[r..] == was[r..] && bytes[..w] + Unescaped(was[r..]) == Unescaped(was)
  }

  lemma UnescapingStarts(was: seq<Byte>)
    ensures Unescaping(was, was, 0, 0)
  {
    assert was[0..] == was;
  }

  lemma UnescapingStep(was: seq<Byte>, bytes: seq<Byte>, r: nat, w: nat, escaped: bool)
    requires Unescaping(was, bytes, r, w) && r < |was|
    requires escaped <==> bytes[r] == BACKSLASH && r + 1 < |bytes| && IsPunctuation(bytes[r + 1])
    ensures var k := if escaped then r + 1 else r;
            k < |bytes| && Unescaping(was, bytes[w := bytes[k]], k + 1, w + 1)
  {
    hide Unescaped;
    var k := if escaped then r + 1 else r;
    assert bytes[r] == bytes[r..][0] == was[r];
    assert r + 1 < |was| ==> bytes[r + 1] == bytes[r..][1] == was[r + 1];
    UnescapedStep(was, r);
    var more := bytes[w := bytes[k]];
    assert more[..w + 1] == bytes[..w] + [was[k]];
    assert more[k + 1..] == bytes[r..][k + 1 - r..] == was[k + 1..];
    JoinsOn(bytes[..w], was[k], Unescaped(was[k + 1..]));
  }

  lemma JoinsOn(a: seq<Byte>, x: Byte, b: seq<Byte>)
    ensures (a + [x]) + b == a + ([x] + b)
  {
  }

  lemma UnescapingEnds(was: seq<Byte>, bytes: seq<Byte>, r: nat, w: nat)
    requires Unescaping(was, bytes, r, w) && r == |was|
    ensures w <= |bytes| && bytes[..w] == Unescaped(was)
  {
    NoneEscaped(was[r..]);
    assert bytes[..w] + [] == bytes[..w];
  }

  lemma UnescapedStep(s: seq<Byte>, r: nat)
    requires r < |s|
    ensures Unescaped(s[r..])
            == if s[r] == BACKSLASH && r + 1 < |s| && IsPunctuation(s[r + 1]) then [s[r + 1]] + Unescaped(s[r + 2..])
               else [s[r]] + Unescaped(s[r + 1..])
  {
    assert s[r..][1..] == s[r + 1..];
    assert r + 1 < |s| ==> s[r..][1] == s[r + 1] && s[r..][2..] == s[r + 2..];
  }

  lemma NoneEscaped(s: seq<Byte>)
    requires s == []
    ensures Unescaped(s) == []
  {
  }

  /** One byte dropped from a buffer that is new writes past its storage: it has none. */
  method DropFromNew() returns (past: bool)
    ensures past
  {
    var buffer := new StringBuffer();
    past := buffer.Drop(1);
  }
}
