/** The order of source entries: a sort by eight-byte keys, a byte a pass, the least first, of the bytes that differ. */
module SourceOrder {
  import opened Basics

  const KEY_LIMIT: nat := 0x1_0000_0000_0000_0000

  // ---------- Keys byte by byte ----------

  /** A key without its `p` lowest bytes. */
  function Rest(key: nat, p: nat): nat
  {
    if p == 0 then key else Rest(key, p - 1) / 256
  }

  /** Its byte `p`, the lowest numbered 0. */
  function Digit(key: nat, p: nat): (b: nat)
    ensures b < 256
  {
    Rest(key, p) % 256
  }

  ghost function Power(p: nat): (n: nat)
    ensures n > 0
  {
    if p == 0 then 1 else 256 * Power(p - 1)
  }

  /** Its `p` lowest bytes as a number. */
  ghost function Low(key: nat, p: nat): nat
  {
    if p == 0 then 0 else Low(key, p - 1) + Digit(key, p - 1) * Power(p - 1)
  }

  lemma {:induction false} LowBelow(key: nat, p: nat)
    ensures Low(key, p) < Power(p)
  {
    if p > 0 {
      LowBelow(key, p - 1);
      TimesUp(Digit(key, p - 1), 255, Power(p - 1));
    }
  }

  lemma {:induction false} LowRest(key: nat, p: nat)
    ensures key == Low(key, p) + Rest(key, p) * Power(p)
  {
    if p > 0 {
      LowRest(key, p - 1);
      var rest, power := Rest(key, p - 1), Power(p - 1);
      assert rest == rest / 256 * 256 + rest % 256;
      Regroup(rest / 256, rest % 256, power);
    }
  }

  lemma Regroup(a: nat, b: nat, power: nat)
    ensures (a * 256 + b) * power == b * power + a * (256 * power)
  {
  }

  lemma Power8()
    ensures Power(8) == KEY_LIMIT
  {
    assert Power(1) == 256 && Power(2) == 0x1_0000 && Power(3) == 0x100_0000 && Power(4) == 0x1_0000_0000;
    assert Power(5) == 0x100_0000_0000 && Power(6) == 0x1_0000_0000_0000 && Power(7) == 0x100_0000_0000_0000;
  }

  lemma LowWhole(key: nat)
    requires key < KEY_LIMIT
    ensures Low(key, 8) == key
  {
    hide *;
    LowRest(key, 8);
    Power8();
    NoRest(Low(key, 8), Rest(key, 8), key);
  }

  lemma NoRest(low: nat, rest: nat, key: nat)
    requires key == low + rest * KEY_LIMIT && key < KEY_LIMIT
    ensures low == key
  {
  }

  /** One byte more decides the order, and the bytes below it that of keys that agree on it. */
  lemma LowNext(a: nat, b: nat, p: nat)
    ensures Digit(a, p) < Digit(b, p) ==> Low(a, p + 1) < Low(b, p + 1)
    ensures Digit(a, p) == Digit(b, p) ==> Low(a, p + 1) - Low(b, p + 1) == Low(a, p) - Low(b, p)
  {
    hide *;
    LowBelow(a, p);
    LowBelow(b, p);
    LowStep(a, p);
    LowStep(b, p);
    HighFirst(Low(a, p), Digit(a, p), Low(b, p), Digit(b, p), Power(p));
  }

  lemma LowStep(key: nat, p: nat)
    ensures Low(key, p + 1) == Low(key, p) + Digit(key, p) * Power(p)
  {
  }

  lemma HighFirst(low: nat, high: nat, low2: nat, high2: nat, power: nat)
    requires low < power && low2 < power
    ensures high < high2 ==> low + high * power < low2 + high2 * power
    ensures high == high2 ==> (low + high * power) - (low2 + high2 * power) == low - low2
  {
    if high < high2 {
      TimesUp(high + 1, high2, power);
    }
  }

  // ---------- What a stable sort is ----------

  /** `order` names each of `n` places once. */
  ghost predicate Permutes(order: seq<nat>, n: nat)
  {
    && |order| == n
    && (forall i :: 0 <= i < n ==> order[i] < n)
    && (forall i, j :: 0 <= i < j < n ==> order[i] != order[j])
  }

  /** In the places `order` names, the keys ascend by their `p` lowest bytes, and of the same ones the places do. */
  ghost predicate Ascends(keys: seq<nat>, order: seq<nat>, p: nat)
    requires Permutes(order, |keys|)
  {
    forall i, j :: 0 <= i < j < |order| ==> Precedes(keys, order[i], order[j], p)
  }

  ghost predicate Precedes(keys: seq<nat>, a: nat, b: nat, p: nat)
    requires a < |keys| && b < |keys|
  {
    Low(keys[a], p) < Low(keys[b], p) || (Low(keys[a], p) == Low(keys[b], p) && a < b)
  }

  /** Entries taken in an order. */
  ghost function Taken<T>(entries: seq<T>, order: seq<nat>): (s: seq<T>)
    requires forall i :: 0 <= i < |order| ==> order[i] < |entries|
    ensures |s| == |order|
  {
    seq(|order|, i requires 0 <= i < |order| => entries[order[i]])
  }

  ghost function Keys<T>(entries: seq<T>, key: T -> nat): (s: seq<nat>)
    ensures |s| == |entries|
  {
    seq(|entries|, i requires 0 <= i < |entries| => key(entries[i]))
  }

  /** `sorted` is the stable sort of `entries` by key. */
  ghost predicate StablySorted<T>(entries: seq<T>, sorted: seq<T>, key: T -> nat)
  {
    exists order :: Sorts(entries, sorted, key, order)
  }

  ghost predicate Sorts<T>(entries: seq<T>, sorted: seq<T>, key: T -> nat, order: seq<nat>)
  {
    Permutes(order, |entries|) && sorted == Taken(entries, order) && Ascends(Keys(entries, key), order, 8)
  }

  /** Entries all taken once are the same entries. */
  lemma {:induction false} TakenAll<T>(entries: seq<T>, order: seq<nat>)
    requires Permutes(order, |entries|)
    ensures multiset(Taken(entries, order)) == multiset(entries)
  {
    hide Permutes, Taken;
    var n := |entries|;
    PermutesSize(order, n);
    if n == 0 {
      TakenNone(entries, order);
    } else {
      var k := PlaceOf(order, n - 1);
      var less := order[..k] + order[k + 1..];
      LessPermutes(order, n, k);
      PermutesSize(less, n - 1);
      TakenAll(entries[..n - 1], less);
      LessTaken(entries, order, k);
      var t := Taken(entries, order);
      assert t == t[..k] + [t[k]] + t[k + 1..];
      assert entries == entries[..n - 1] + [entries[n - 1]];
    }
  }

  lemma PermutesSize(order: seq<nat>, n: nat)
    requires Permutes(order, n)
    ensures |order| == n && forall i :: 0 <= i < n ==> order[i] < n
  {
  }

  lemma TakenNone<T>(entries: seq<T>, order: seq<nat>)
    requires Permutes(order, |entries|) && entries == []
    ensures Taken(entries, order) == entries
  {
  }

  /** An order without its last place. */
  lemma LessPermutes(order: seq<nat>, n: nat, k: nat)
    requires Permutes(order, n) && k < n && order[k] == n - 1
    ensures Permutes(order[..k] + order[k + 1..], n - 1)
  {
    var less := order[..k] + order[k + 1..];
    assert forall i :: 0 <= i < |less| ==> less[i] == order[if i < k then i else i + 1];
  }

  lemma LessTaken<T>(entries: seq<T>, order: seq<nat>, k: nat)
    requires Permutes(order, |entries|) && k < |entries| && order[k] == |entries| - 1
    ensures Permutes(order[..k] + order[k + 1..], |entries| - 1)
    ensures var t := Taken(entries, order);
            |t| == |entries| && t[k] == entries[|entries| - 1]
            && Taken(entries[..|entries| - 1], order[..k] + order[k + 1..]) == t[..k] + t[k + 1..]
  {
    LessPermutes(order, |entries|, k);
    var t, less := Taken(entries, order), order[..k] + order[k + 1..];
    var rest := t[..k] + t[k + 1..];
    forall i | 0 <= i < |rest|
      ensures Taken(entries[..|entries| - 1], less)[i] == rest[i]
    {
      var at := if i < k then i else i + 1;
      assert less[i] == order[at] && rest[i] == t[at];
    }
  }

  /** Each place is named. */
  lemma PlaceOf(order: seq<nat>, x: nat) returns (k: nat)
    requires Permutes(order, |order|) && x < |order|
    ensures k < |order| && order[k] == x
  {
    var named := set i | 0 <= i < |order| :: order[i];
    var all := AllBelow(|order|);
    NamedSize(order);
    if x !in named {
      SubsetSize(named, all - {x});
      assert false;
    }
    k :| 0 <= k < |order| && order[k] == x;
  }

  lemma {:induction false} NamedSize(order: seq<nat>)
    requires forall i, j :: 0 <= i < j < |order| ==> order[i] != order[j]
    ensures |set i | 0 <= i < |order| :: order[i]| == |order|
  {
    if order != [] {
      var last := |order| - 1;
      NamedSize(order[..last]);
      assert (set i | 0 <= i < |order| :: order[i]) == (set i | 0 <= i < last :: order[..last][i]) + {order[last]};
    }
  }

  ghost function AllBelow(n: nat): (s: set<nat>)
    ensures |s| == n && forall i: nat :: i in s <==> i < n
  {
    if n == 0 then {} else AllBelow(n - 1) + {n - 1}
  }

  lemma {:induction false} SubsetSize<T>(a: set<T>, b: set<T>)
    requires a <= b
    ensures |a| <= |b|
  {
    if a != {} {
      var x :| x in a;
      SubsetSize(a - {x}, b - {x});
    }
  }

  /** THERE IS ONE STABLE SORT. */
  lemma SortedOnce<T>(entries: seq<T>, a: seq<T>, b: seq<T>, key: T -> nat)
    requires StablySorted(entries, a, key) && StablySorted(entries, b, key)
    ensures a == b
  {
    var p :| Sorts(entries, a, key, p);
    var q :| Sorts(entries, b, key, q);
    OrderOnce(Keys(entries, key), p, q);
  }

  lemma OrderOnce(keys: seq<nat>, p: seq<nat>, q: seq<nat>)
    requires Permutes(p, |keys|) && Permutes(q, |keys|) && Ascends(keys, p, 8) && Ascends(keys, q, 8)
    ensures p == q
  {
    OrderUpTo(keys, p, q, |keys|);
  }

  lemma {:induction false} OrderUpTo(keys: seq<nat>, p: seq<nat>, q: seq<nat>, n: nat)
    requires Permutes(p, |keys|) && Permutes(q, |keys|) && Ascends(keys, p, 8) && Ascends(keys, q, 8) && n <= |keys|
    ensures p[..n] == q[..n]
  {
    if n > 0 {
      var i := n - 1;
      OrderUpTo(keys, p, q, i);
      assert forall k :: 0 <= k < i ==> p[k] == p[..i][k] == q[k];
      var j := PlaceOf(q, p[i]);
      var l := PlaceOf(p, q[i]);
      PrecedesAt(keys, q, i, j);
      PrecedesAt(keys, p, i, l);
      assert p[..n] == p[..i] + [p[i]] && q[..n] == q[..i] + [q[i]];
    }
  }

  lemma PrecedesAt(keys: seq<nat>, order: seq<nat>, i: nat, j: nat)
    requires Permutes(order, |keys|) && Ascends(keys, order, 8) && i < |keys| && j < |keys|
    ensures i < j ==> Precedes(keys, order[i], order[j], 8)
  {
  }

  // ---------- A pass ----------

  /** The keys of a bucket below `b`, in the first `n`. */
  ghost function Below(keys: seq<nat>, p: nat, b: nat): nat
  {
    if keys == [] then 0
    else Below(keys[..|keys| - 1], p, b) + if Digit(keys[|keys| - 1], p) < b then 1 else 0
  }

  ghost function In(keys: seq<nat>, p: nat, b: nat): nat
  {
    if keys == [] then 0
    else In(keys[..|keys| - 1], p, b) + if Digit(keys[|keys| - 1], p) == b then 1 else 0
  }

  lemma {:induction false} BelowNext(keys: seq<nat>, p: nat, b: nat)
    ensures Below(keys, p, b + 1) == Below(keys, p, b) + In(keys, p, b)
    ensures Below(keys, p, 0) == 0 && Below(keys, p, 256) == |keys|
  {
    if keys != [] {
      BelowNext(keys[..|keys| - 1], p, b);
    }
  }

  lemma {:induction false} BelowUp(keys: seq<nat>, p: nat, b: nat, c: nat)
    requires b <= c
    ensures Below(keys, p, b) <= Below(keys, p, c)
    decreases c
  {
    if b < c {
      BelowUp(keys, p, b, c - 1);
      BelowNext(keys, p, c - 1);
    }
  }

  /** Fewer of a bucket come before a key of it than there are. */
  lemma {:induction false} InUp(keys: seq<nat>, p: nat, b: nat, i: nat)
    requires i < |keys|
    ensures In(keys[..i + 1], p, b) == In(keys[..i], p, b) + (if Digit(keys[i], p) == b then 1 else 0)
    ensures In(keys[..i + 1], p, b) <= In(keys, p, b)
    decreases |keys| - i
  {
    assert keys[..i + 1][..i] == keys[..i];
    if i + 1 < |keys| {
      InUp(keys, p, b, i + 1);
    } else {
      assert keys[..i + 1] == keys;
    }
  }

  /** The places of the buckets once the first `i` keys are put: the first of each bucket's that are, in order. */
  ghost predicate Placed(keys: seq<nat>, p: nat, offsets: seq<nat>, from: seq<nat>, i: nat)
    requires i <= |keys|
  {
    && |offsets| == 256 && |from| == |keys|
    && (forall b :: 0 <= b < 256 ==> offsets[b] == Below(keys, p, b) + In(keys[..i], p, b))
    && (forall b: nat, a: nat :: b < 256 && Below(keys, p, b) <= a < offsets[b] ==> Holds(keys, p, b, from, a, i))
    && (forall b: nat, a: nat, c: nat :: b < 256 && Below(keys, p, b) <= a < c < offsets[b] ==> Follow(from, a, c))
  }

  ghost predicate Holds(keys: seq<nat>, p: nat, b: nat, from: seq<nat>, a: nat, i: nat)
  {
    a < |from| && from[a] < i && i <= |keys| && Digit(keys[from[a]], p) == b
  }

  ghost predicate Follow(from: seq<nat>, a: nat, c: nat)
  {
    a < |from| && c < |from| && from[a] < from[c]
  }

  lemma NonePlaced(keys: seq<nat>, p: nat, offsets: seq<nat>, from: seq<nat>)
    requires |offsets| == 256 && |from| == |keys| && forall b :: 0 <= b < 256 ==> offsets[b] == Below(keys, p, b)
    ensures Placed(keys, p, offsets, from, 0)
  {
    assert keys[..0] == [];
  }

  /** One key more put at its bucket's next place, where no key was put. */
  lemma PlaceNext(keys: seq<nat>, p: nat, offsets: seq<nat>, from: seq<nat>, i: nat)
    requires i < |keys| && Placed(keys, p, offsets, from, i)
    ensures var b := Digit(keys[i], p);
            && offsets[b] < |keys|
            && Placed(keys, p, offsets[b := offsets[b] + 1], from[offsets[b] := i], i + 1)
  {
    hide Below, In, Digit;
    var b := Digit(keys[i], p);
    var at := offsets[b];
    InUp(keys, p, b, i);
    BelowNext(keys, p, b);
    BelowUp(keys, p, b + 1, 256);
    var more, put, next := offsets[b := at + 1], from[at := i], i + 1;
    forall c: nat | c < 256
      ensures more[c] == Below(keys, p, c) + In(keys[..i + 1], p, c)
    {
      InUp(keys, p, c, i);
    }
    forall c: nat, a: nat | c < 256 && Below(keys, p, c) <= a < more[c]
      ensures Holds(keys, p, c, put, a, next) && (c != b ==> a != at)
    {
      BucketsApart(keys, p, offsets, i, b, c);
      if a != at {
        assert Holds(keys, p, c, from, a, i);
      }
    }
    forall c: nat, a: nat, d: nat | c < 256 && Below(keys, p, c) <= a < d < more[c]
      ensures Follow(put, a, d)
    {
      assert Holds(keys, p, c, put, a, next) && Holds(keys, p, c, put, d, next);
      if d != at {
        assert Follow(from, a, d);
      } else {
        assert Holds(keys, p, c, from, a, i);
      }
    }
  }

  /** What is put in one bucket ends before what is put in the next starts. */
  lemma BucketsApart(keys: seq<nat>, p: nat, offsets: seq<nat>, i: nat, b: nat, c: nat)
    requires i < |keys| && |offsets| == 256 && b < 256 && c < 256
    requires forall b :: 0 <= b < 256 ==> offsets[b] == Below(keys, p, b) + In(keys[..i], p, b)
    ensures b < c ==> offsets[b] <= Below(keys, p, c)
    ensures c < b ==> offsets[c] <= Below(keys, p, b)
    ensures b < c && Digit(keys[i], p) == b ==> offsets[b] < Below(keys, p, c)
  {
    hide Below, In, Digit;
    InUp(keys, p, b, i);
    InUp(keys, p, c, i);
    BelowNext(keys, p, b);
    BelowNext(keys, p, c);
    if b < c {
      BelowUp(keys, p, b + 1, c);
    } else if c < b {
      BelowUp(keys, p, c + 1, b);
    }
  }

  /** `from` puts keys in order of their byte `p`, and those that agree on it in the order they were in. */
  ghost predicate Stable(keys: seq<nat>, p: nat, from: seq<nat>)
    requires Permutes(from, |keys|)
  {
    forall a, c :: 0 <= a < c < |from| ==> Before(keys, p, from[a], from[c])
  }

  ghost predicate Before(keys: seq<nat>, p: nat, i: nat, j: nat)
    requires i < |keys| && j < |keys|
  {
    Digit(keys[i], p) < Digit(keys[j], p) || (Digit(keys[i], p) == Digit(keys[j], p) && i < j)
  }

  lemma {:induction false} BucketOf(keys: seq<nat>, p: nat, a: nat, upto: nat) returns (b: nat)
    requires a < Below(keys, p, upto)
    ensures b < upto && Below(keys, p, b) <= a < Below(keys, p, b + 1)
    decreases upto
  {
    BelowNext(keys, p, 0);
    if Below(keys, p, upto - 1) <= a {
      b := upto - 1;
    } else {
      b := BucketOf(keys, p, a, upto - 1);
    }
  }

  /** ALL KEYS PUT, a pass is a stable sort by its byte. */
  lemma AllPlaced(keys: seq<nat>, p: nat, offsets: seq<nat>, from: seq<nat>)
    requires Placed(keys, p, offsets, from, |keys|)
    ensures Permutes(from, |keys|) && Stable(keys, p, from)
  {
    hide Below, In, Digit;
    assert keys[..|keys|] == keys;
    forall a: nat | a < |keys|
      ensures from[a] < |keys|
    {
      BelowNext(keys, p, 0);
      var b := BucketOf(keys, p, a, 256);
      BelowNext(keys, p, b);
      assert Holds(keys, p, b, from, a, |keys|);
    }
    forall a: nat, c: nat | a < c < |keys|
      ensures Before(keys, p, from[a], from[c]) && from[a] != from[c]
    {
      BelowNext(keys, p, 0);
      var b := BucketOf(keys, p, a, 256);
      var d := BucketOf(keys, p, c, 256);
      BelowNext(keys, p, b);
      BelowNext(keys, p, d);
      BelowUp(keys, p, if b < d then b + 1 else d, if b < d then d else b);
      BelowUp(keys, p, if d < b then d + 1 else b, if d < b then b else d);
      assert Holds(keys, p, b, from, a, |keys|) && Holds(keys, p, d, from, c, |keys|);
      assert b == d ==> Follow(from, a, c);
    }
  }

  // ---------- The passes together ----------

  /** The places in the order they are in. */
  ghost function InOrder(n: nat): (order: seq<nat>)
    ensures Permutes(order, n)
  {
    seq(n, i requires 0 <= i < n => i)
  }

  lemma TakenInOrder<T>(entries: seq<T>)
    ensures Taken(entries, InOrder(|entries|)) == entries
  {
  }

  lemma TakenTwice<T>(entries: seq<T>, order: seq<nat>, from: seq<nat>)
    requires forall i :: 0 <= i < |order| ==> order[i] < |entries|
    requires forall i :: 0 <= i < |from| ==> from[i] < |order|
    ensures forall i :: 0 <= i < |from| ==> Taken(order, from)[i] < |entries|
    ensures Taken(entries, Taken(order, from)) == Taken(Taken(entries, order), from)
  {
  }

  lemma AscendsAtFirst(keys: seq<nat>)
    ensures Ascends(keys, InOrder(|keys|), 0)
  {
  }

  /** A PASS BY ONE BYTE MORE puts keys in order by it and the bytes below. */
  lemma PassAscends(keys: seq<nat>, order: seq<nat>, p: nat, from: seq<nat>)
    requires Permutes(order, |keys|) && Ascends(keys, order, p)
    requires Permutes(from, |keys|) && Stable(Taken(keys, order), p, from)
    ensures Permutes(Taken(order, from), |keys|) && Ascends(keys, Taken(order, from), p + 1)
  {
    hide Low, Digit;
    var after, now, more := Taken(order, from), Taken(keys, order), p + 1;
    forall a, c | 0 <= a < c < |keys|
      ensures after[a] != after[c] && Precedes(keys, after[a], after[c], more)
    {
      var i, j := from[a], from[c];
      assert Before(now, p, i, j);
      LowNext(keys[order[i]], keys[order[j]], p);
      assert i < j ==> Precedes(keys, order[i], order[j], p);
      assert i > j ==> order[i] != order[j];
    }
  }

  /** A PASS BY A BYTE ALL KEYS AGREE ON would change nothing. */
  lemma SkipAscends(keys: seq<nat>, order: seq<nat>, p: nat)
    requires Permutes(order, |keys|) && Ascends(keys, order, p) && AllAgree(keys, p)
    ensures Ascends(keys, order, p + 1)
  {
    hide Low, Digit;
    var more := p + 1;
    forall a, c | 0 <= a < c < |keys|
      ensures Precedes(keys, order[a], order[c], more)
    {
      assert Precedes(keys, order[a], order[c], p);
      assert Agrees(keys, p, order[a]) && Agrees(keys, p, order[c]);
      LowNext(keys[order[a]], keys[order[c]], p);
    }
  }

  /** All keys have the first one's byte `p`. */
  ghost predicate AllAgree(keys: seq<nat>, p: nat)
  {
    forall i: nat :: i < |keys| ==> Agrees(keys, p, i)
  }

  ghost predicate Agrees(keys: seq<nat>, p: nat, i: nat)
    requires i < |keys|
  {
    Digit(keys[i], p) == Digit(keys[0], p)
  }

  /** The bytes a key has unlike another: those its exclusive OR with it has that are not zero. */
  function Unlike(a: nat, b: nat): (s: set<nat>)
    ensures forall p: nat :: p in s <==> p < 8 && Digit(a, p) != Digit(b, p)
  {
    set p: nat | p < 8 && Digit(a, p) != Digit(b, p)
  }

  lemma {:induction false} OrderedAscends(keys: seq<nat>)
    requires forall i :: 0 < i < |keys| ==> keys[i - 1] <= keys[i]
    requires forall i :: 0 <= i < |keys| ==> keys[i] < KEY_LIMIT
    ensures Ascends(keys, InOrder(|keys|), 8)
  {
    hide Low;
    var eight := 8;
    forall a, c | 0 <= a < c < |keys|
      ensures Precedes(keys, a, c, eight)
    {
      StepsUp(keys, a, c);
      LowWhole(keys[a]);
      LowWhole(keys[c]);
    }
  }

  lemma {:induction false} StepsUp(keys: seq<nat>, a: nat, c: nat)
    requires forall i :: 0 < i < |keys| ==> keys[i - 1] <= keys[i]
    requires a <= c < |keys|
    ensures keys[a] <= keys[c]
    decreases c
  {
    if a < c {
      StepsUp(keys, a, c - 1);
    }
  }

  /** Counts, then places, each key and its entry by its byte `p`. */
  method Pass<T>(keys: array<nat>, source: array<T>, keyTarget: array<nat>, target: array<T>, p: nat) returns (ghost from: seq<nat>)
    requires keys.Length == source.Length == keyTarget.Length == target.Length && keys != keyTarget && source != target
    requires keyTarget as object != source as object && keys as object != target as object
    requires keyTarget as object != target as object
    modifies keyTarget, target
    ensures Permutes(from, keys.Length) && Stable(keys[..], p, from)
    ensures keyTarget[..] == Taken(keys[..], from) && target[..] == Taken(source[..], from)
  {
    hide Below, In, Placed, Stable, Filled, Digit;
    var n := keys.Length;
    ghost var all := keys[..];
    var offsets := Counts(keys, p);
    var offset, b := 0, 0;
    BelowNext(all, p, 0);
    while b < 256
      invariant b <= 256 && offset == Below(all, p, b)
      invariant forall c :: 0 <= c < b ==> offsets[c] == Below(all, p, c)
      invariant forall c :: b <= c < 256 ==> offsets[c] == In(all, p, c)
    {
      BelowNext(all, p, b);
      var length := offsets[b];
      offsets[b] := offset;
      offset := offset + length;
      b := b + 1;
    }
    from := seq(n, i => 0);
    ghost var entries := source[..];
    NonePlaced(all, p, offsets[..], from);
    NoneFilled(all, p, offsets[..], from, all, keyTarget[..]);
    NoneFilled(all, p, offsets[..], from, entries, target[..]);
    for i := 0 to n
      invariant |from| == n && keys[..] == all && source[..] == entries && Placed(all, p, offsets[..], from, i)
      invariant Filled(all, p, offsets[..], from, all, keyTarget[..]) && Filled(all, p, offsets[..], from, entries, target[..])
    {
      var digit := Digit(keys[i], p);
      PlaceNext(all, p, offsets[..], from, i);
      FillNext(all, p, offsets[..], from, i, all, keyTarget[..]);
      FillNext(all, p, offsets[..], from, i, entries, target[..]);
      var destination := offsets[digit];
      offsets[digit] := offsets[digit] + 1;
      keyTarget[destination] := keys[i];
      target[destination] := source[i];
      from := from[destination := i];
    }
    AllPlaced(all, p, offsets[..], from);
    AllFilled(all, p, offsets[..], from, all, keyTarget[..]);
    AllFilled(all, p, offsets[..], from, entries, target[..]);
  }

  method Counts(keys: array<nat>, p: nat) returns (offsets: array<nat>)
    ensures fresh(offsets) && offsets.Length == 256 && forall b :: 0 <= b < 256 ==> offsets[b] == In(keys[..], p, b)
  {
    hide In, Digit;
    offsets := new nat[256](_ => 0);
    NoneIn(p);
    assert keys[..0] == [];
    for i := 0 to keys.Length
      invariant forall b: nat :: b < 256 ==> offsets[b] == In(keys[..i], p, b)
    {
      forall b: nat | b < 256
        ensures In(keys[..i + 1], p, b) == In(keys[..i], p, b) + (if Digit(keys[i], p) == b then 1 else 0)
      {
        InUp(keys[..], p, b, i);
        assert keys[..][..i + 1] == keys[..i + 1] && keys[..][..i] == keys[..i];
      }
      offsets[Digit(keys[i], p)] := offsets[Digit(keys[i], p)] + 1;
    }
    assert keys[..keys.Length] == keys[..];
  }

  lemma NoneIn(p: nat)
    ensures forall b :: In([], p, b) == 0
  {
  }

  /** Where a key is put is what came with it. */
  ghost predicate Filled<T>(keys: seq<nat>, p: nat, offsets: seq<nat>, from: seq<nat>, source: seq<T>, target: seq<T>)
  {
    && |offsets| == 256 && |from| == |keys| == |source| == |target|
    && forall b: nat, a: nat :: b < 256 && Below(keys, p, b) <= a < offsets[b] ==> Copied(from, source, target, a)
  }

  ghost predicate Copied<T>(from: seq<nat>, source: seq<T>, target: seq<T>, a: nat)
  {
    a < |from| && a < |target| && from[a] < |source| && target[a] == source[from[a]]
  }

  lemma NoneFilled<T>(keys: seq<nat>, p: nat, offsets: seq<nat>, from: seq<nat>, source: seq<T>, target: seq<T>)
    requires |offsets| == 256 && |from| == |keys| == |source| == |target|
    requires forall b :: 0 <= b < 256 ==> offsets[b] == Below(keys, p, b)
    ensures Filled(keys, p, offsets, from, source, target)
  {
  }

  lemma FillNext<T>(keys: seq<nat>, p: nat, offsets: seq<nat>, from: seq<nat>, i: nat, source: seq<T>, target: seq<T>)
    requires i < |keys| && Placed(keys, p, offsets, from, i) && Filled(keys, p, offsets, from, source, target)
    ensures var b := Digit(keys[i], p);
            && offsets[b] < |keys|
            && Filled(keys, p, offsets[b := offsets[b] + 1], from[offsets[b] := i], source, target[offsets[b] := source[i]])
  {
    hide Below, In, Digit;
    PlaceNext(keys, p, offsets, from, i);
    var b := Digit(keys[i], p);
    var at := offsets[b];
    var more, put, copied := offsets[b := at + 1], from[at := i], target[at := source[i]];
    forall c: nat, a: nat | c < 256 && Below(keys, p, c) <= a < more[c]
      ensures Copied(put, source, copied, a)
    {
      if a != at {
        assert Copied(from, source, target, a);
      }
    }
  }

  lemma AllFilled<T>(keys: seq<nat>, p: nat, offsets: seq<nat>, from: seq<nat>, source: seq<T>, target: seq<T>)
    requires Placed(keys, p, offsets, from, |keys|) && Filled(keys, p, offsets, from, source, target)
    ensures Permutes(from, |keys|) && target == Taken(source, from)
  {
    hide Below, In, Digit;
    AllPlaced(keys, p, offsets, from);
    assert keys[..|keys|] == keys;
    forall a: nat | a < |keys|
      ensures target[a] == source[from[a]]
    {
      BelowNext(keys, p, 0);
      var b := BucketOf(keys, p, a, 256);
      BelowNext(keys, p, b);
      assert Copied(from, source, target, a);
    }
  }

  /** Where a sort stands before its pass by byte `p`. */
  ghost predicate Sorting<T>(was: seq<T>, all: seq<nat>, p: nat, order: seq<nat>, keys: seq<nat>, entries: seq<T>)
  {
    && |was| == |all| && Permutes(order, |all|) && Ascends(all, order, p)
    && keys == Taken(all, order) && entries == Taken(was, order)
  }

  lemma SortingStarts<T>(was: seq<T>, all: seq<nat>)
    requires |was| == |all|
    ensures Sorting(was, all, 0, InOrder(|all|), all, was)
  {
    AscendsAtFirst(all);
    TakenInOrder(all);
    TakenInOrder(was);
  }

  lemma SortingPass<T>(was: seq<T>, all: seq<nat>, p: nat, order: seq<nat>, keys: seq<nat>, entries: seq<T>, from: seq<nat>)
    requires Sorting(was, all, p, order, keys, entries) && Permutes(from, |keys|) && Stable(keys, p, from)
    ensures |entries| == |keys| == |order| && Sorting(was, all, p + 1, Taken(order, from), Taken(keys, from), Taken(entries, from))
  {
    hide Ascends, Stable;
    PassAscends(all, order, p, from);
    TakenTwice(all, order, from);
    TakenTwice(was, order, from);
  }

  lemma SortingSkip<T>(was: seq<T>, all: seq<nat>, p: nat, order: seq<nat>, keys: seq<nat>, entries: seq<T>)
    requires Sorting(was, all, p, order, keys, entries) && AllAgree(all, p)
    ensures Sorting(was, all, p + 1, order, keys, entries)
  {
    hide AllAgree;
    SkipAscends(all, order, p);
  }

  lemma SortingEnds<T>(was: seq<T>, key: T -> nat, order: seq<nat>, keys: seq<nat>, entries: seq<T>)
    requires Sorting(was, Keys(was, key), 8, order, keys, entries)
    ensures StablySorted(was, entries, key) && multiset(entries) == multiset(was)
  {
    hide Ascends;
    assert Sorts(was, entries, key, order);
    TakenAll(was, order);
  }

  lemma SortingNone<T>(was: seq<T>, key: T -> nat)
    requires forall i :: 0 < i < |was| ==> Keys(was, key)[i - 1] <= Keys(was, key)[i]
    requires forall i :: 0 <= i < |was| ==> key(was[i]) < KEY_LIMIT
    ensures StablySorted(was, was, key)
  {
    OrderedAscends(Keys(was, key));
    TakenInOrder(was);
    assert Sorts(was, was, key, InOrder(|was|));
  }

  /** The bytes some of the first `n` keys have unlike the first. */
  ghost predicate Differing(keys: seq<nat>, n: nat, differing: set<nat>)
    requires n <= |keys|
  {
    && (forall p :: p in differing ==> p < 8)
    && (forall p: nat, i: nat :: p < 8 && p !in differing && i < n ==> Agrees(keys, p, i))
  }

  lemma DifferingAll(keys: seq<nat>, differing: set<nat>, p: nat)
    requires Differing(keys, |keys|, differing) && p < 8 && p !in differing
    ensures AllAgree(keys, p)
  {
  }

  method CopyBack<T>(source: array<T>, target: array<T>)
    requires source != target && source.Length == target.Length
    modifies target
    ensures target[..] == source[..]
  {
    for i := 0 to source.Length
      invariant target[..i] == source[..i]
    {
      target[i] := source[i];
    }
    assert target[..] == target[..target.Length] && source[..] == source[..target.Length];
  }

  /** The room the sort keeps from one call to the next, by the work it does. */
  class Workspace {
    var work: nat

    constructor ()
      ensures work == 0
    {
      work := 0;
    }

    /** ENTRIES IN THE STABLE ORDER OF THEIR KEYS, all of them, or as they were when storage cannot be had. */
    method Order<T(0)>(entries: array<T>, key: T -> nat, granted: bool) returns (ok: bool)
      requires forall x :: key(x) < KEY_LIMIT
      modifies this, entries
      ensures ok ==> StablySorted(old(entries[..]), entries[..], key) && multiset(entries[..]) == multiset(old(entries[..]))
      ensures !ok ==> entries[..] == old(entries[..])
      ensures granted || entries.Length < 2 ==> ok
      ensures work <= old(work) + 17 * entries.Length
    {
      hide Sorting, Differing, StablySorted, AllAgree, Stable;
      var count := entries.Length;
      ghost var was := entries[..];
      ghost var all := Keys(was, key);
      if count < 2 {
        SortingNone(was, key);
        return true;
      }
      ok := HasStorage(granted);
      if !ok {
        return;
      }
      var keys := new nat[count];
      work := work + count;
      var differing, ordered := FindKeys(entries, key, keys);
      if ordered {
        SortingNone(was, key);
        return true;
      }
      ok := HasStorage(granted);
      if !ok {
        return;
      }
      var keyTarget := new nat[count];
      var target := new T[count];
      PassAll(entries, keys, keyTarget, target, differing, key);
    }

    /** The keys of entries, the bytes they differ in, and whether they are in order. */
    method FindKeys<T>(entries: array<T>, key: T -> nat, keys: array<nat>) returns (differing: set<nat>, ordered: bool)
      requires keys.Length == entries.Length > 0 && keys as object != entries as object
      modifies keys
      ensures keys[..] == Keys(entries[..], key)
      ensures Differing(keys[..], keys.Length, differing)
      ensures ordered <==> forall i :: 0 < i < keys.Length ==> keys[..][i - 1] <= keys[..][i]
    {
      hide Unlike;
      ghost var was := entries[..];
      ghost var all := Keys(was, key);
      keys[0] := key(entries[0]);
      differing, ordered := {}, true;
      for i := 1 to keys.Length
        invariant entries[..] == was && keys[..i] == all[..i]
        invariant Differing(all, i, differing)
        invariant ordered <==> forall k :: 0 < k < i ==> all[k - 1] <= all[k]
      {
        keys[i] := key(entries[i]);
        assert keys[i] == all[i] && keys[0] == keys[..i][0] == all[0] && keys[i - 1] == keys[..i][i - 1];
        differing := differing + Unlike(keys[i], keys[0]);
        ordered := ordered && keys[i - 1] <= keys[i];
      }
      assert keys[..] == all;
    }

    method PassAll<T>(entries: array<T>, keys: array<nat>, spareKeys: array<nat>, spare: array<T>, differing: set<nat>, key: T -> nat)
      requires entries.Length == keys.Length == spareKeys.Length == spare.Length
      requires keys != spareKeys && entries != spare && keys as object != entries as object && keys as object != spare as object
      requires spareKeys as object != entries as object && spareKeys as object != spare as object
      requires keys[..] == Keys(entries[..], key) && Differing(keys[..], keys.Length, differing)
      modifies this`work, entries, keys, spareKeys, spare
      ensures StablySorted(old(entries[..]), entries[..], key) && multiset(entries[..]) == multiset(old(entries[..]))
      ensures work <= old(work) + 16 * entries.Length
    {
      hide Sorting, Differing, StablySorted, AllAgree, Stable, Taken, Digit;
      var count := entries.Length;
      ghost var was := entries[..];
      ghost var all, order := keys[..], InOrder(count);
      SortingStarts(was, all);
      var source, target, keySource, keyTarget := entries, spare, keys, spareKeys;
      for p := 0 to 8
        invariant (source == entries && target == spare) || (source == spare && target == entries)
        invariant (keySource == keys && keyTarget == spareKeys) || (keySource == spareKeys && keyTarget == keys)
        invariant Sorting(was, all, p, order, keySource[..], source[..])
        invariant work <= old(work) + 2 * p * count
      {
        if p in differing {
          work := work + 2 * count;
          ghost var from := Pass(keySource, source, keyTarget, target, p);
          SortingPass(was, all, p, order, keySource[..], source[..], from);
          order := Taken(order, from);
          source, target := target, source;
          keySource, keyTarget := keyTarget, keySource;
        } else {
          DifferingAll(all, differing, p);
          SortingSkip(was, all, p, order, keySource[..], source[..]);
        }
      }
      SortingEnds(was, key, order, keySource[..], source[..]);
      if source != entries {
        CopyBack(source, entries);
      }
    }
  }
}
