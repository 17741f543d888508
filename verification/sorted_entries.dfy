/** What a sorted run of entries denotes: a finite map from keys to entries, its keys in byte order. */
module SortedEntries {
  import opened KeyOrder
  import opened KeyTreeModel
  import opened KeyTreeGrowth

  /** Entries in strict order, each of some key. */
  ghost predicate Listed(s: seq<Item>)
  {
    Sorted(Weight, s) && forall i :: 0 <= i < |s| ==> Keyed(s[i])
  }

  lemma ListedWithin(s: seq<Item>)
    requires Sorted(Weight, s) && Within(Weight, s, -1.0, 1.0)
    ensures Listed(s)
  {
    hide Keyed;
  }

  lemma KeyedAt(s: seq<Item>, i: nat)
    requires Listed(s) && i < |s|
    ensures Keyed(s[i])
  {
  }

  lemma KeysDistinct(s: seq<Item>, i: nat, j: nat)
    requires Listed(s) && i < |s| && j < |s| && Keyed(s[i]) && Keyed(s[j])
    ensures KeyOf(s[i]) == KeyOf(s[j]) ==> i == j
    ensures i < j ==> Less(KeyOf(s[i]), KeyOf(s[j]))
  {
    hide KeyOf, Fraction, Less, Keyed;
    FractionOrder(KeyOf(s[i]), KeyOf(s[j]));
    FractionOrder(KeyOf(s[j]), KeyOf(s[i]));
  }

  /** The map the entries stand for. */
  ghost function Denoted(s: seq<Item>): (m: map<Key, Item>)
    requires Listed(s)
  {
    AllKeysDistinct(s);
    map i | 0 <= i < |s| :: KeyOf(s[i]) := s[i]
  }

  lemma InDenoted(s: seq<Item>, i: nat)
    requires Listed(s) && i < |s|
    ensures Keyed(s[i]) && KeyOf(s[i]) in Denoted(s) && Denoted(s)[KeyOf(s[i])] == s[i]
  {
    hide KeyOf, Keyed;
    AllKeysDistinct(s);
  }

  lemma FromDenoted(s: seq<Item>, k: Key) returns (i: nat)
    requires Listed(s) && k in Denoted(s)
    ensures i < |s| && Keyed(s[i]) && KeyOf(s[i]) == k && Denoted(s)[k] == s[i]
  {
    hide KeyOf, Keyed;
    AllKeysDistinct(s);
    i :| 0 <= i < |s| && KeyOf(s[i]) == k;
  }

  lemma AllKeysDistinct(s: seq<Item>)
    requires Listed(s)
    ensures forall i, j :: 0 <= i < |s| && 0 <= j < |s| && KeyOf(s[i]) == KeyOf(s[j]) ==> i == j
  {
    forall i, j | 0 <= i < |s| && 0 <= j < |s| && KeyOf(s[i]) == KeyOf(s[j])
      ensures i == j
    {
      KeysDistinct(s, i, j);
    }
  }

  /** ENTRIES ARE IN BYTE ORDER of their keys. */
  lemma ByteOrder(s: seq<Item>, i: nat, j: nat)
    requires Listed(s) && i < |s| && j < |s|
    ensures Keyed(s[i]) && Keyed(s[j])
    ensures i < j <==> Less(KeyOf(s[i]), KeyOf(s[j]))
  {
    KeyedAt(s, i);
    KeyedAt(s, j);
    KeysDistinct(s, i, j);
    KeysDistinct(s, j, i);
    FractionOrder(KeyOf(s[i]), KeyOf(s[j]));
    FractionOrder(KeyOf(s[j]), KeyOf(s[i]));
  }

  /** The entries below rank `r` are those whose keys are before the key. */
  ghost predicate CountsBefore(s: seq<Item>, r: nat, key: Item)
    requires Keyed(key)
  {
    r <= |s| && forall i :: 0 <= i < |s| ==> Keyed(s[i]) && (i < r <==> Less(KeyOf(s[i]), KeyOf(key)))
  }

  /** A RANK IS A COUNT: the entries below it are those whose keys are before the key. */
  lemma RankMeans(s: seq<Item>, r: nat, key: Item)
    requires Listed(s) && Keyed(key)
    ensures IsRank(Weight, s, r, Weight(key)) <==> CountsBefore(s, r, key)
  {
    hide Keyed, KeyOf, Less, Fraction;
    forall i | 0 <= i < |s|
      ensures Keyed(s[i]) && (Less(KeyOf(s[i]), KeyOf(key)) <==> Weight(s[i]) < Weight(key))
    {
      FractionOrder(KeyOf(s[i]), KeyOf(key));
    }
    if r <= |s| {
      assert forall i :: 0 <= i < r ==> s[..r][i] == s[i];
      assert forall i :: r <= i < |s| ==> s[r..][i - r] == s[i];
    }
  }

  lemma RankSplits(s: seq<Item>, r: nat, w: real)
    requires IsRank(Weight, s, r, w)
    ensures r <= |s| && forall i :: 0 <= i < |s| ==> (i < r <==> Weight(s[i]) < w)
  {
    hide Weight;
    assert forall i :: 0 <= i < r ==> s[..r][i] == s[i];
    assert forall i :: r <= i < |s| ==> s[r..][i - r] == s[i];
  }

  lemma SameWeight(a: Item, b: Item)
    requires Keyed(a) && Keyed(b)
    ensures KeyOf(a) == KeyOf(b) <==> Weight(a) == Weight(b)
  {
    hide KeyOf, Keyed, Fraction, Less;
    FractionOrder(KeyOf(a), KeyOf(b));
  }

  lemma SortedAt(s: seq<Item>, i: nat, j: nat)
    requires Listed(s) && i < j < |s|
    ensures Weight(s[i]) < Weight(s[j])
  {
  }

  /** A KEY IS DENOTED exactly when the entry at its rank has it. */
  lemma RankFinds(s: seq<Item>, r: nat, key: Item)
    requires Listed(s) && Keyed(key) && IsRank(Weight, s, r, Weight(key))
    ensures HasAt(Weight, s, r, Weight(key)) <==> KeyOf(key) in Denoted(s)
    ensures HasAt(Weight, s, r, Weight(key)) ==> Denoted(s)[KeyOf(key)] == s[r]
  {
    hide Keyed, KeyOf, Less, Fraction, Denoted, Listed, IsRank, Weight;
    RankSplits(s, r, Weight(key));
    if HasAt(Weight, s, r, Weight(key)) {
      InDenoted(s, r);
      SameWeight(s[r], key);
    }
    if KeyOf(key) in Denoted(s) {
      var i := FromDenoted(s, KeyOf(key));
      SameWeight(s[i], key);
      if r < i {
        SortedAt(s, r, i);
      }
    }
  }

  /** RANK AND SELECT ARE INVERSE: the rank of the key at rank `r` is `r`. */
  lemma RankOfSelected(s: seq<Item>, r: nat)
    requires Listed(s) && r < |s|
    ensures IsRank(Weight, s, r, Weight(s[r])) && HasAt(Weight, s, r, Weight(s[r]))
  {
  }

  /** A rank is the only one of its key. */
  lemma RankUnique(s: seq<Item>, r: nat, q: nat, w: real)
    requires IsRank(Weight, s, r, w) && IsRank(Weight, s, q, w)
    ensures r == q
  {
    hide IsRank, Weight;
    RankSplits(s, r, w);
    RankSplits(s, q, w);
    assert r < |s| ==> Weight(s[r]) >= w;
    assert q < |s| ==> Weight(s[q]) >= w;
  }

  /** Where entry `i` of a run goes when one is put in at `r`. */
  function Past(i: nat, r: nat): nat {
    if i < r then i else i + 1
  }

  function Back(j: nat, r: nat): nat
    requires j != r
  {
    if j < r then j else j - 1
  }

  lemma WithAt<T>(s: seq<T>, r: nat, e: T)
    requires r <= |s|
    ensures |With(s, r, e)| == |s| + 1 && With(s, r, e)[r] == e
    ensures forall i :: 0 <= i < |s| ==> With(s, r, e)[Past(i, r)] == s[i]
    ensures forall j :: 0 <= j <= |s| && j != r ==> Past(Back(j, r), r) == j
  {
  }

  lemma WithoutAt<T>(s: seq<T>, r: nat)
    requires r < |s|
    ensures With(Without(s, r), r, s[r]) == s && |Without(s, r)| == |s| - 1
  {
  }

  /** A sorted run and an entry put in anywhere that leaves it sorted. */
  lemma PutDenotes(s: seq<Item>, r: nat, e: Item, k: Key)
    requires r <= |s| && Listed(s) && Listed(With(s, r, e)) && Keyed(e)
    ensures KeyOf(e) !in Denoted(s)
    ensures k in Denoted(With(s, r, e)) <==> k == KeyOf(e) || k in Denoted(s)
    ensures k in Denoted(With(s, r, e)) ==> Denoted(With(s, r, e))[k] == if k == KeyOf(e) then e else Denoted(s)[k]
  {
    hide Keyed, KeyOf, Denoted, Listed, Weight, With, Less;
    var t := With(s, r, e);
    WithAt(s, r, e);
    InDenoted(t, r);
    if KeyOf(e) in Denoted(s) {
      var i := FromDenoted(s, KeyOf(e));
      KeysDistinct(t, r, Past(i, r));
      KeysDistinct(t, Past(i, r), r);
    }
    if k in Denoted(s) {
      var i := FromDenoted(s, k);
      InDenoted(t, Past(i, r));
    }
    if k in Denoted(t) && k != KeyOf(e) {
      var j := FromDenoted(t, k);
      var i := Back(j, r);
      assert Past(i, r) == j && t[j] == s[i];
      InDenoted(s, i);
    }
  }

  /** AN INSERTION AT ITS RANK adds one key to the map. */
  lemma WithDenotes(s: seq<Item>, r: nat, e: Item)
    requires Listed(s) && Keyed(e) && IsRank(Weight, s, r, Weight(e)) && !HasAt(Weight, s, r, Weight(e))
    ensures Listed(With(s, r, e)) && Denoted(With(s, r, e)) == Denoted(s)[KeyOf(e) := e]
  {
    hide Keyed, KeyOf, Denoted, Listed, Weight, With, IsRank, HasAt;
    WithListed(s, r, e);
    assert r <= |s| by { RankSplits(s, r, Weight(e)); }
    forall k: Key
      ensures k in Denoted(With(s, r, e)) <==> k == KeyOf(e) || k in Denoted(s)
      ensures k in Denoted(With(s, r, e)) ==> Denoted(With(s, r, e))[k] == if k == KeyOf(e) then e else Denoted(s)[k]
    {
      PutDenotes(s, r, e, k);
    }
    assert Denoted(With(s, r, e)).Keys == Denoted(s)[KeyOf(e) := e].Keys;
  }

  lemma WithListed(s: seq<Item>, r: nat, e: Item)
    requires Listed(s) && Keyed(e) && IsRank(Weight, s, r, Weight(e)) && !HasAt(Weight, s, r, Weight(e))
    ensures Listed(With(s, r, e))
  {
    hide Keyed, Weight, IsRank;
    RankSplits(s, r, Weight(e));
    var t := With(s, r, e);
    assert r < |s| ==> Weight(s[r]) > Weight(e);
    forall i, j | 0 <= i < j < |t|
      ensures Weight(t[i]) < Weight(t[j])
    {
      assert t[i] == if i < r then s[i] else if i == r then e else s[i - 1];
      assert t[j] == if j < r then s[j] else if j == r then e else s[j - 1];
    }
  }

  /** A REMOVAL AT ITS RANK takes one key out of the map. */
  lemma WithoutDenotes(s: seq<Item>, r: nat, key: Item)
    requires Listed(s) && Keyed(key) && HasAt(Weight, s, r, Weight(key))
    ensures Listed(Without(s, r)) && Denoted(Without(s, r)) == Denoted(s) - {KeyOf(key)}
  {
    hide Keyed, KeyOf, Denoted, Weight, With, Less;
    var t := Without(s, r);
    assert (forall i :: 0 <= i < r ==> t[i] == s[i]) && (forall i :: r <= i < |t| ==> t[i] == s[i + 1]);
    assert Listed(t);
    hide *;
    KeyedAt(s, r);
    SameWeight(s[r], key);
    WithoutAt(s, r);
    forall k: Key
      ensures k in Denoted(s) <==> k == KeyOf(key) || k in Denoted(t)
      ensures KeyOf(key) !in Denoted(t)
      ensures k in Denoted(t) ==> Denoted(t)[k] == Denoted(s)[k]
    {
      PutDenotes(t, r, s[r], k);
    }
    assert Denoted(t).Keys == (Denoted(s) - {KeyOf(key)}).Keys;
  }

  /** What a removal of the key at its rank, when it is there, makes of the map. */
  lemma RemovalDenotes(s: seq<Item>, r: nat, key: Item, t: seq<Item>)
    requires Listed(s) && Keyed(key) && IsRank(Weight, s, r, Weight(key))
    requires t == if HasAt(Weight, s, r, Weight(key)) then Without(s, r) else s
    ensures Listed(t) && Denoted(t) == Denoted(s) - {KeyOf(key)}
  {
    hide *;
    RankFinds(s, r, key);
    if HasAt(Weight, s, r, Weight(key)) {
      WithoutDenotes(s, r, key);
    }
  }
}
