/** Byte keys, their packed eight-byte heads, and the order the two agree on. */
module KeyOrder {
  import opened Basics

  type Key = seq<Byte>

  /** Byte-lexicographic order, a shorter key first on a common prefix. */
  ghost predicate Less(a: Key, b: Key)
  {
    b != [] && (a == [] || a[0] < b[0] || (a[0] == b[0] && Less(a[1..], b[1..])))
  }

  /** A keyed entry. `bytes` is what the key pointer addresses; a key of at most eight bytes
      is all in its head, and its pointer may address nothing. */
  datatype Entry = Entry(head: nat, bytes: Key, len: nat, extra: nat, value: int)

  const ZERO := Entry(0, [], 0, 0, 0)

  // ---------- Heads ----------

  /** A key's byte, or the padding past its end. */
  ghost function At(key: Key, i: nat): Byte
  {
    if i < |key| then key[i] else 0
  }

  /** Bytes as one big-endian number. */
  ghost function Value(bytes: Key): nat
  {
    if bytes == [] then 0 else 256 * Value(bytes[..|bytes| - 1]) + bytes[|bytes| - 1]
  }

  /** The first `n` bytes of `key`, padded with zero bytes, as one big-endian number. */
  ghost function Digits(key: Key, n: nat): nat
  {
    Value(seq(n, i requires 0 <= i => At(key, i)))
  }

  lemma DigitsStep(key: Key, n: nat)
    requires n > 0
    ensures Digits(key, n) == 256 * Digits(key, n - 1) + At(key, n - 1)
  {
    var bytes := seq(n, i requires 0 <= i => At(key, i));
    assert bytes[..n - 1] == seq(n - 1, i requires 0 <= i => At(key, i));
  }

  ghost predicate Represents(e: Entry, key: Key)
  {
    e.head == Digits(key, 8) && e.len == |key| && (|key| > 8 ==> e.bytes == key)
  }

  function Pow256(n: nat): (p: nat)
    ensures p > 0
  {
    if n == 0 then 1 else 256 * Pow256(n - 1)
  }

  lemma {:induction false} DigitsPadding(key: Key, n: nat)
    requires |key| <= n
    ensures Digits(key, n) == Digits(key, |key|) * Pow256(n - |key|)
  {
    if n > |key| {
      DigitsStep(key, n);
      DigitsPadding(key, n - 1);
      assert Pow256(n - |key|) == 256 * Pow256(n - 1 - |key|);
    }
  }

  lemma HeadBound(key: Key)
    ensures Digits(key, 8) < 0x1_0000_0000_0000_0000
  {
    DigitsBound(key, 8);
    assert Pow256(4) == 0x1_0000_0000;
    assert Pow256(8) == 0x1_0000_0000_0000_0000;
  }

  /** The head of a key, shifting its bytes in and then the padding. */
  method KeyHead(key: Key) returns (head: nat)
    ensures head == Digits(key, 8) < 0x1_0000_0000_0000_0000
  {
    HeadBound(key);
    var bytes := if |key| < 8 then |key| else 8;
    head := 0;
    for i := 0 to bytes
      invariant head == Digits(key, i)
    {
      head := head * 256 + key[i];
      DigitsStep(key, i + 1);
    }
    if bytes < 8 {
      DigitsPadding(key, 8);
    }
    head := if bytes > 0 then head * Pow256(8 - bytes) else 0;
  }

  // ---------- The order of entries ----------

  /** The bytes from `at` on in the order memcmp gives two runs of one length. */
  function CompareBytes(a: Key, b: Key): int
    requires |a| == |b|
  {
    if a == [] then 0
    else if a[0] != b[0] then a[0] - b[0]
    else CompareBytes(a[1..], b[1..])
  }

  function CompareLengths(a: nat, b: nat): int
  {
    (if a > b then 1 else 0) - (if a < b then 1 else 0)
  }

  /** Whether an entry's bytes can be read where the order reads them. */
  predicate Readable(e: Entry) {
    e.len > 8 ==> |e.bytes| == e.len
  }

  /** The order of two keys with equal heads. */
  function TieOrder(a: Entry, b: Entry): int
    requires Readable(a) && Readable(b)
  {
    if a.len <= 8 || b.len <= 8 then CompareLengths(a.len, b.len)
    else
      var common := (if a.len < b.len then a.len else b.len) - 8;
      var order := CompareBytes(a.bytes[8..8 + common], b.bytes[8..8 + common]);
      if order != 0 then order else CompareLengths(a.len, b.len)
  }

  predicate EntryBefore(a: Entry, b: Entry)
    requires Readable(a) && Readable(b)
  {
    if a.head != b.head then a.head < b.head else TieOrder(a, b) < 0
  }

  predicate EntrySame(a: Entry, b: Entry)
    requires Readable(a) && Readable(b)
  {
    a.head == b.head && TieOrder(a, b) == 0
  }

  // ---------- The order is byte-lexicographic ----------

  /** Two keys agree on their first `n` bytes, the padding included. */
  ghost predicate Agree(a: Key, b: Key, n: nat)
  {
    forall i :: 0 <= i < n ==> At(a, i) == At(b, i)
  }

  lemma {:induction false} DigitsBound(key: Key, n: nat)
    ensures Digits(key, n) < Pow256(n)
  {
    if n > 0 {
      DigitsStep(key, n);
      DigitsBound(key, n - 1);
    }
  }

  /** Equal heads agree byte by byte; unequal heads order as their first unequal byte does. */
  lemma {:induction false} DigitsOrder(a: Key, b: Key, n: nat)
    ensures Digits(a, n) == Digits(b, n) <==> Agree(a, b, n)
    ensures Digits(a, n) < Digits(b, n) ==>
              exists k :: 0 <= k < n && Agree(a, b, k) && At(a, k) < At(b, k)
  {
    if n > 0 {
      hide Digits;
      DigitsStep(a, n);
      DigitsStep(b, n);
      DigitsOrder(a, b, n - 1);
      if Digits(a, n) < Digits(b, n) {
        if Digits(a, n - 1) < Digits(b, n - 1) {
          var k :| 0 <= k < n - 1 && Agree(a, b, k) && At(a, k) < At(b, k);
          assert 0 <= k < n && Agree(a, b, k) && At(a, k) < At(b, k);
        } else {
          assert Agree(a, b, n - 1) && At(a, n - 1) < At(b, n - 1);
        }
      }
    }
  }

  lemma {:induction false} LessAtByte(a: Key, b: Key, k: nat)
    requires Agree(a, b, k) && At(a, k) < At(b, k)
    ensures Less(a, b) && !Less(b, a)
    decreases k
  {
    assert b != [];
    if a != [] && k > 0 {
      assert At(a, 0) == At(b, 0);
      forall i | 0 <= i < k - 1
        ensures At(a[1..], i) == At(b[1..], i)
      {
        assert At(a, i + 1) == At(b, i + 1);
      }
      assert At(a[1..], k - 1) == At(a, k) && At(b[1..], k - 1) == At(b, k);
      LessAtByte(a[1..], b[1..], k - 1);
    }
  }

  lemma {:induction false} LessPrefix(a: Key, b: Key)
    requires |a| < |b| && b[..|a|] == a
    ensures Less(a, b) && !Less(b, a)
  {
    if a != [] {
      assert b[0] == b[..|a|][0] == a[0];
      assert b[1..][..|a[1..]|] == b[..|a|][1..] == a[1..];
      LessPrefix(a[1..], b[1..]);
    }
  }

  lemma {:induction false} LessAfterCommon(a: Key, b: Key, n: nat)
    requires n <= |a| && n <= |b| && a[..n] == b[..n]
    ensures Less(a, b) <==> Less(a[n..], b[n..])
  {
    if n == 0 {
      assert a[0..] == a && b[0..] == b;
    } else {
      assert a[0] == a[..n][0] == b[..n][0] == b[0];
      assert a[1..][..n - 1] == a[..n][1..] == b[..n][1..] == b[1..][..n - 1];
      LessAfterCommon(a[1..], b[1..], n - 1);
      assert a[1..][n - 1..] == a[n..] && b[1..][n - 1..] == b[n..];
    }
  }

  lemma {:induction false} CompareBytesOrder(a: Key, b: Key)
    requires |a| == |b|
    ensures CompareBytes(a, b) < 0 <==> Less(a, b)
    ensures CompareBytes(a, b) == 0 <==> a == b
    ensures CompareBytes(a, b) > 0 <==> Less(b, a)
  {
    if a != [] {
      CompareBytesOrder(a[1..], b[1..]);
      if a[0] == b[0] && a[1..] == b[1..] {
        assert a == [a[0]] + a[1..] == b;
      }
    }
  }

  lemma {:induction false} LessOfUnequalFronts(a: Key, b: Key, c: Key, d: Key)
    requires |a| == |b| && Less(a, b)
    ensures Less(a + c, b + d) && !Less(b + d, a + c)
  {
    assert (a + c)[0] == a[0] && (b + d)[0] == b[0];
    if a[0] == b[0] {
      LessOfUnequalFronts(a[1..], b[1..], c, d);
      assert (a + c)[1..] == a[1..] + c && (b + d)[1..] == b[1..] + d;
    }
  }

  /** Bytes up to the shorter end, and then lengths, order two runs as the byte order does. */
  lemma TailsOrder(a: Key, b: Key, common: nat)
    requires common == if |a| < |b| then |a| else |b|
    ensures var order := CompareBytes(a[..common], b[..common]);
            && ((if order != 0 then order else CompareLengths(|a|, |b|)) < 0 <==> Less(a, b))
            && ((if order != 0 then order else CompareLengths(|a|, |b|)) == 0 <==> a == b)
  {
    hide Less, CompareBytes;
    var s, t := a[..common], b[..common];
    CompareBytesOrder(s, t);
    assert a == s + a[common..] && b == t + b[common..];
    if Less(s, t) {
      LessOfUnequalFronts(s, t, a[common..], b[common..]);
    } else if Less(t, s) {
      LessOfUnequalFronts(t, s, b[common..], a[common..]);
    } else if |a| < |b| {
      LessPrefix(a, b);
    } else if |b| < |a| {
      LessPrefix(b, a);
    } else {
      LessIrreflexive(a);
    }
  }

  /** The tail compare of two long keys whose heads are equal. */
  lemma TieOrderOfLongKeys(a: Entry, b: Entry, ka: Key, kb: Key)
    requires Represents(a, ka) && Represents(b, kb)
    requires |ka| > 8 && |kb| > 8 && ka[..8] == kb[..8]
    ensures TieOrder(a, b) < 0 <==> Less(ka, kb)
    ensures TieOrder(a, b) == 0 <==> ka == kb
  {
    hide Less, CompareBytes, Digits;
    LessAfterCommon(ka, kb, 8);
    var common := (if |ka| < |kb| then |ka| else |kb|) - 8;
    TailsOrder(ka[8..], kb[8..], common);
    assert ka[8..][..common] == ka[8..8 + common] && kb[8..][..common] == kb[8..8 + common];
    assert ka == ka[..8] + ka[8..] && kb == kb[..8] + kb[8..];
  }

  /** The lengths decide when one of two keys with equal heads is all in its head. */
  lemma TieOrderOfShortKeys(ka: Key, kb: Key)
    requires Agree(ka, kb, 8) && |ka| <= 8 && |ka| <= |kb|
    ensures |ka| < |kb| ==> Less(ka, kb) && !Less(kb, ka)
    ensures |ka| == |kb| ==> ka == kb
  {
    forall i | 0 <= i < |ka|
      ensures ka[i] == kb[i]
    {
      assert At(ka, i) == At(kb, i);
    }
    assert kb[..|ka|] == ka;
    if |ka| < |kb| {
      LessPrefix(ka, kb);
    } else {
      assert kb[..|ka|] == kb;
    }
  }

  /** THE PACKED ORDER IS THE BYTE ORDER: comparing heads, and then lengths or tails, orders
      two entries as their keys are ordered and finds them the same exactly when the keys are. */
  lemma PackedOrder(a: Entry, b: Entry, ka: Key, kb: Key)
    requires Represents(a, ka) && Represents(b, kb)
    ensures Readable(a) && Readable(b)
    ensures EntryBefore(a, b) <==> Less(ka, kb)
    ensures EntrySame(a, b) <==> ka == kb
  {
    hide Less, Digits, Agree, TieOrder;
    DigitsOrder(ka, kb, 8);
    DigitsOrder(kb, ka, 8);
    if a.head < b.head {
      var k :| 0 <= k < 8 && Agree(ka, kb, k) && At(ka, k) < At(kb, k);
      LessAtByte(ka, kb, k);
    } else if b.head < a.head {
      var k :| 0 <= k < 8 && Agree(kb, ka, k) && At(kb, k) < At(ka, k);
      LessAtByte(kb, ka, k);
    } else {
      TiedOrder(a, b, ka, kb);
    }
  }

  /** The order of two entries with equal heads. */
  lemma TiedOrder(a: Entry, b: Entry, ka: Key, kb: Key)
    requires Represents(a, ka) && Represents(b, kb) && Agree(ka, kb, 8)
    ensures TieOrder(a, b) < 0 <==> Less(ka, kb)
    ensures TieOrder(a, b) == 0 <==> ka == kb
  {
    hide Less, Digits, CompareBytes;
    if |ka| <= 8 || |kb| <= 8 {
      if |ka| <= |kb| {
        TieOrderOfShortKeys(ka, kb);
      } else {
        TieOrderOfShortKeys(kb, ka);
      }
      LessIrreflexive(ka);
    } else {
      forall i | 0 <= i < 8
        ensures ka[..8][i] == kb[..8][i]
      {
        assert At(ka, i) == At(kb, i);
      }
      assert ka[..8] == kb[..8];
      TieOrderOfLongKeys(a, b, ka, kb);
    }
  }

  lemma {:induction false} LessIrreflexive(a: Key)
    ensures !Less(a, a)
  {
    if a != [] {
      LessIrreflexive(a[1..]);
    }
  }

  // ---------- Numbers as keys ----------

  /** The four big-endian bytes of a 32-bit number. */
  ghost function BigEndian(number: nat): Key
    requires number < 0x1_0000_0000
  {
    [number / 0x100_0000, number / 0x1_0000 % 256, number / 256 % 256, number % 256]
  }

  function NumberEntry(number: nat): Entry
    requires number < 0x1_0000_0000
  {
    Entry(number * 0x1_0000_0000, [], 4, number, 0)
  }

  /** A number is the key of its big-endian bytes, and numbers order as those keys do. */
  lemma NumbersAreKeys(a: nat, b: nat)
    requires a < 0x1_0000_0000 && b < 0x1_0000_0000
    ensures Represents(NumberEntry(a), BigEndian(a))
    ensures Less(BigEndian(a), BigEndian(b)) <==> a < b
  {
    NumberDigits(a);
    NumberDigits(b);
    PackedOrder(NumberEntry(a), NumberEntry(b), BigEndian(a), BigEndian(b));
  }

  lemma NumberDigits(a: nat)
    requires a < 0x1_0000_0000
    ensures Digits(BigEndian(a), 8) == a * 0x1_0000_0000
  {
    hide Digits;
    var k := BigEndian(a);
    DigitsOfNone(k);
    DigitsStep(k, 1);
    DigitsStep(k, 2);
    assert Digits(k, 2) == a / 0x1_0000;
    DigitsStep(k, 3);
    DigitsStep(k, 4);
    assert Digits(k, 4) == a;
    DigitsPadding(k, 8);
    assert Pow256(4) == 0x1_0000_0000;
  }

  lemma DigitsOfNone(key: Key)
    ensures Digits(key, 0) == 0
  {
  }

  // ---------- Entries whose keys can be told from them ----------

  ghost predicate Keyed(e: Entry)
  {
    exists key :: Represents(e, key)
  }

  /** What the nodes of an index hold: entries, each of some key. */
  type Item = Entry

  /** The key of an entry of one. */
  ghost function KeyOf(e: Item): Key
    requires Keyed(e)
  {
    var key :| Represents(e, key); key
  }

  lemma KeyOfRepresented(e: Item, key: Key)
    requires Represents(e, key)
    ensures KeyOf(e) == key
  {
    PackedOrder(e, e, key, key);
    PackedOrder(e, e, key, KeyOf(e));
  }

  /** The entry made for a new key: the key's head, bytes and length, a zero number and no value. */
  function Blank(e: Item): (r: Item)
    requires Keyed(e)
    ensures Keyed(r) && KeyOf(r) == KeyOf(e) && Weight(r) == Weight(e)
  {
    assert Represents(Entry(e.head, e.bytes, e.len, 0, 0), KeyOf(e));
    KeyOfRepresented(Entry(e.head, e.bytes, e.len, 0, 0), KeyOf(e));
    Entry(e.head, e.bytes, e.len, 0, 0)
  }

  lemma BlankIs(e: Item)
    requires Keyed(e)
    ensures Blank(e) == e.(extra := 0, value := 0)
  {
  }

  // ---------- The byte order as an order of numbers ----------

  /** A number in [0, 1) for each key, in the order of the keys. */
  ghost function Fraction(key: Key): (r: real)
    ensures 0.0 <= r < 1.0
  {
    if key == [] then 0.0 else (key[0] as real + 1.0 + Fraction(key[1..])) / 257.0
  }

  lemma {:induction false} FractionOrder(a: Key, b: Key)
    ensures Fraction(a) < Fraction(b) <==> Less(a, b)
    ensures Fraction(a) == Fraction(b) <==> a == b
  {
    if a != [] && b != [] {
      FractionOrder(a[1..], b[1..]);
      if a[0] == b[0] && a[1..] == b[1..] {
        assert a == [a[0]] + a[1..] == b;
      }
    }
  }

  /** Where an entry's key stands in the order; an entry of no key stands nowhere. */
  ghost function Weight(e: Item): (r: real)
    ensures Keyed(e) ==> 0.0 <= r < 1.0
    ensures r >= -1.0 ==> Keyed(e)
  {
    if Keyed(e) then Fraction(KeyOf(e)) else -2.0
  }

  /** Whether `a` stands before `b`, told from their heads, lengths and tails alone. */
  predicate Before(a: Item, b: Item): (r: bool)
    requires Weight(a) >= -1.0 && Weight(b) >= -1.0
    ensures r <==> Weight(a) < Weight(b)
    ensures r <==> Less(KeyOf(a), KeyOf(b))
  {
    PackedOrder(a, b, KeyOf(a), KeyOf(b));
    FractionOrder(KeyOf(a), KeyOf(b));
    EntryBefore(a, b)
  }

  predicate Same(a: Item, b: Item): (r: bool)
    requires Weight(a) >= -1.0 && Weight(b) >= -1.0
    ensures r <==> Weight(a) == Weight(b)
    ensures r <==> KeyOf(a) == KeyOf(b)
  {
    PackedOrder(a, b, KeyOf(a), KeyOf(b));
    FractionOrder(KeyOf(a), KeyOf(b));
    EntrySame(a, b)
  }
}
