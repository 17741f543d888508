/** Linear probing as a value: what a table of slots denotes, what keeps every key findable,
    and what filling, finding and shifting back do to it. */
module HashTable {
  import opened KeyOrder
  import opened Basics

  /** A slot; a vacant one has no key. */
  datatype Slot = Slot(hash: nat, key: Option<Key>, len: nat, extra: nat, value: nat)

  const VACANT := Slot(0, None, 0, 0, 0)

  type Hash = Key -> nat

  predicate Live(x: Slot) {
    x.key.Some?
  }

  /** The steps forward from slot `a` to slot `b` of `n`. */
  function Dist(a: nat, b: nat, n: nat): (d: nat)
    requires a < n && b < n
    ensures d < n && d == (b - a) % n
  {
    if a <= b then b - a
    else
      assert (b - a) % n == b - a + n by { WrapsOnce(b - a, n); }
      b - a + n
  }

  lemma WrapsOnce(x: int, n: nat)
    requires n > 0 && -(n as int) <= x < 0
    ensures x % n == x + n
  {
    var q := x / n;
    assert x == q * n + x % n;
    Signs(q, n);
  }

  lemma Signs(q: int, n: nat)
    ensures q >= 0 ==> q * n >= 0
    ensures q <= -2 ==> q * n <= -2 * n
  {
  }

  /** The slot after `p`. */
  function Next(p: nat, n: nat): (q: nat)
    requires p < n
    ensures q < n && q == (p + 1) % n
  {
    if p + 1 < n then p + 1 else 0
  }

  function Home(x: nat, n: nat): (h: nat)
    requires n > 0
    ensures h < n
  {
    x % n
  }

  // ---------- The invariant ----------

  /** Every slot from `from` up to, not including, `to` is live. */
  ghost predicate Filled(s: seq<Slot>, from: nat, to: nat)
    requires from < |s| && to < |s|
  {
    forall j :: 0 <= j < |s| && Dist(from, j, |s|) < Dist(from, to, |s|) ==> Live(s[j])
  }

  /** A lookup of slot `i`'s key walks no vacant slot on the way from the key's home. */
  ghost predicate Reached(s: seq<Slot>, i: nat)
    requires i < |s|
  {
    Live(s[i]) ==> Filled(s, Home(s[i].hash, |s|), i)
  }

  ghost predicate Marked(hash: Hash, x: Slot)
  {
    match x.key
    case Some(key) => x.hash == hash(key) && x.len == |key|
    case None => x.extra == 0 && x.value == 0
  }

  ghost predicate Distinct(s: seq<Slot>)
  {
    forall i, j :: 0 <= i < j < |s| && Live(s[i]) && Live(s[j]) ==> s[i].key != s[j].key
  }

  ghost predicate Table(hash: Hash, s: seq<Slot>)
  {
    && (forall i :: 0 <= i < |s| ==> Marked(hash, s[i]))
    && (forall i :: 0 <= i < |s| ==> Reached(s, i))
    && Distinct(s)
  }

  /** The map a table stands for: each live key, with its slot. */
  ghost function Held(s: seq<Slot>): map<Key, Slot>
    requires Distinct(s)
  {
    map i | 0 <= i < |s| && Live(s[i]) :: s[i].key.value := s[i]
  }

  lemma InHeld(s: seq<Slot>, i: nat)
    requires Distinct(s) && i < |s| && Live(s[i])
    ensures s[i].key.value in Held(s) && Held(s)[s[i].key.value] == s[i]
  {
  }

  lemma FromHeld(s: seq<Slot>, key: Key) returns (i: nat)
    requires Distinct(s) && key in Held(s)
    ensures i < |s| && s[i].key == Some(key) && Held(s)[key] == s[i]
  {
    i :| 0 <= i < |s| && Live(s[i]) && s[i].key.value == key;
  }

  ghost function Count(s: seq<Slot>): (n: nat)
    ensures n <= |s|
  {
    if s == [] then 0 else Count(s[..|s| - 1]) + if Live(s[|s| - 1]) then 1 else 0
  }

  // ---------- A lookup ----------

  /** What a lookup of `key` that ends at slot `p` saw: live slots of other keys, and then
      the key's slot or a vacant one. */
  ghost predicate Ends(hash: Hash, s: seq<Slot>, key: Key, p: nat)
    requires p < |s|
  {
    && (Live(s[p]) ==> s[p].key == Some(key))
    && Filled(s, Home(hash(key), |s|), p)
    && forall j :: 0 <= j < |s| && Dist(Home(hash(key), |s|), j, |s|) < Dist(Home(hash(key), |s|), p, |s|) ==>
         s[j].key != Some(key)
  }

  /** A LOOKUP FINDS: it ends at a live slot exactly when the table holds the key. */
  lemma EndsFinds(hash: Hash, s: seq<Slot>, key: Key, p: nat)
    requires Table(hash, s) && p < |s| && Ends(hash, s, key, p)
    ensures Live(s[p]) <==> key in Held(s)
    ensures Live(s[p]) ==> Held(s)[key] == s[p]
  {
    if key in Held(s) {
      var i := FromHeld(s, key);
      assert Marked(hash, s[i]) && Reached(s, i);
    }
    if Live(s[p]) {
      InHeld(s, p);
    }
  }

  // ---------- Filling a slot ----------

  /** A slot of a key the table has not, put where its lookup ended. */
  lemma Fill(hash: Hash, s: seq<Slot>, p: nat, x: Slot)
    requires Table(hash, s) && p < |s| && Live(x) && Marked(hash, x)
    requires Ends(hash, s, x.key.value, p) && !Live(s[p])
    ensures Table(hash, s[p := x]) && Held(s[p := x]) == Held(s)[x.key.value := x]
    ensures Count(s[p := x]) == Count(s) + 1
  {
    hide Held, Count;
    EndsFinds(hash, s, x.key.value, p);
    FillTable(hash, s, p, x);
    FillHeld(s, p, x);
    CountUpdate(s, p, x);
  }

  lemma FillTable(hash: Hash, s: seq<Slot>, p: nat, x: Slot)
    requires Table(hash, s) && p < |s| && Live(x) && Marked(hash, x)
    requires Ends(hash, s, x.key.value, p) && !Live(s[p]) && x.key.value !in Held(s)
    ensures Table(hash, s[p := x])
  {
    hide Held, Count;
    var t := s[p := x];
    forall i | 0 <= i < |t|
      ensures Reached(t, i)
    {
      assert Reached(s, i);
    }
    forall i | 0 <= i < |s| && Live(s[i])
      ensures s[i].key != x.key
    {
      InHeld(s, i);
    }
  }

  lemma FillHeld(s: seq<Slot>, p: nat, x: Slot)
    requires Distinct(s) && p < |s| && Live(x) && !Live(s[p]) && Distinct(s[p := x])
    ensures Held(s[p := x]) == Held(s)[x.key.value := x]
  {
    hide Held;
    var t := s[p := x];
    forall k: Key
      ensures k in Held(t) <==> k == x.key.value || k in Held(s)
      ensures k in Held(t) ==> Held(t)[k] == if k == x.key.value then x else Held(s)[k]
    {
      InHeld(t, p);
      if k in Held(t) && k != x.key.value {
        var i := FromHeld(t, k);
        InHeld(s, i);
      }
      if k in Held(s) {
        var i := FromHeld(s, k);
        InHeld(t, i);
      }
    }
    assert Held(t).Keys == Held(s)[x.key.value := x].Keys;
  }

  lemma {:induction false} CountUpdate(s: seq<Slot>, p: nat, x: Slot)
    requires p < |s|
    ensures Count(s[p := x]) + (if Live(s[p]) then 1 else 0) == Count(s) + if Live(x) then 1 else 0
  {
    var n := |s| - 1;
    if p < n {
      CountUpdate(s[..n], p, x);
      assert s[p := x][..n] == s[..n][p := x];
    } else {
      assert s[p := x][..n] == s[..n];
    }
  }

  lemma {:induction false} CountFull(s: seq<Slot>)
    ensures (forall i :: 0 <= i < |s| ==> Live(s[i])) <==> Count(s) == |s|
    ensures (forall i :: 0 <= i < |s| ==> !Live(s[i])) <==> Count(s) == 0
  {
    if s != [] {
      var t := s[..|s| - 1];
      CountFull(t);
      assert forall i :: 0 <= i < |t| ==> t[i] == s[i];
      assert forall i :: 0 <= i < |s| ==> s[i] == if i < |t| then t[i] else s[|s| - 1];
    }
  }

  lemma VacantSlot(s: seq<Slot>) returns (v: nat)
    requires Count(s) < |s|
    ensures v < |s| && !Live(s[v])
  {
    CountFull(s);
    v :| 0 <= v < |s| && !Live(s[v]);
  }

  // ---------- A removal ----------

  /** A table but for slot `hole`, whose content is stale: every other key is reached over live slots,
      and no key between the hole and `next` is reached over the hole. */
  ghost predicate Shifting(hash: Hash, s: seq<Slot>, hole: nat, next: nat)
    requires hole < |s| && next < |s|
  {
    && (forall i :: 0 <= i < |s| ==> Marked(hash, s[i]))
    && Live(s[hole])
    && (forall i :: 0 <= i < |s| && i != hole ==> Reached(s, i))
    && (forall i, j :: 0 <= i < j < |s| && i != hole && j != hole && Live(s[i]) && Live(s[j]) ==> s[i].key != s[j].key)
    && (forall i :: 0 <= i < |s| && i != hole && Dist(hole, i, |s|) < Dist(hole, next, |s|) ==> Live(s[i]) && !Over(s, hole, i))
  }

  /** A lookup of slot `i`'s key walks over `hole`. */
  ghost predicate Over(s: seq<Slot>, hole: nat, i: nat)
    requires hole < |s| && i < |s|
  {
    var h := Home(s[i].hash, |s|);
    Dist(h, hole, |s|) < Dist(h, i, |s|)
  }

  /** What the table holds but for its hole. */
  ghost function HeldBut(s: seq<Slot>, hole: nat): map<Key, Slot>
    requires hole < |s| && Distinct(s[hole := VACANT])
  {
    Held(s[hole := VACANT])
  }

  /** The entry at `next` may fill the hole: its home is not between the two. */
  lemma Shift(hash: Hash, s: seq<Slot>, hole: nat, next: nat)
    requires hole < |s| && next < |s| && hole != next && Shifting(hash, s, hole, next) && Live(s[next])
    requires Over(s, hole, next)
    ensures var t := s[hole := s[next]];
            && Shifting(hash, t, next, Next(next, |s|))
            && Distinct(t[next := VACANT]) && Distinct(s[hole := VACANT])
            && HeldBut(t, next) == HeldBut(s, hole)
            && forall i :: 0 <= i < |s| ==> Live(t[i]) == Live(s[i])
  {
    var t := s[hole := s[next]];
    forall i | 0 <= i < |t| && i != next
      ensures Reached(t, i)
    {
      if i == hole {
        assert Reached(s, next);
      } else {
        assert Reached(s, i);
      }
    }
    ShiftHeld(s, hole, next);
  }

  lemma ShiftDistinct(s: seq<Slot>, hole: nat, next: nat)
    requires hole < |s| && next < |s| && hole != next && Live(s[next])
    requires Distinct(s[hole := VACANT])
    ensures Distinct(s[hole := s[next]][next := VACANT])
  {
    var a, b := s[hole := VACANT], s[hole := s[next]][next := VACANT];
    forall i, j | 0 <= i < j < |b| && Live(b[i]) && Live(b[j])
      ensures b[i].key != b[j].key
    {
      var x, y := if i == hole then next else i, if j == hole then next else j;
      assert a[x] == b[i] && a[y] == b[j];
    }
  }

  lemma ShiftHeld(s: seq<Slot>, hole: nat, next: nat)
    requires hole < |s| && next < |s| && hole != next && Live(s[next])
    requires Distinct(s[hole := VACANT])
    ensures Distinct(s[hole := s[next]][next := VACANT])
    ensures Held(s[hole := s[next]][next := VACANT]) == Held(s[hole := VACANT])
  {
    hide Held, Distinct;
    ShiftDistinct(s, hole, next);
    var a, b := s[hole := VACANT], s[hole := s[next]][next := VACANT];
    forall k: Key
      ensures k in Held(a) <==> k in Held(b)
      ensures k in Held(a) ==> Held(a)[k] == Held(b)[k]
    {
      if k in Held(a) {
        var i := FromHeld(a, k);
        InHeld(b, if i == next then hole else i);
      }
      if k in Held(b) {
        var i := FromHeld(b, k);
        InHeld(a, if i == hole then next else i);
      }
    }
    assert Held(a).Keys == Held(b).Keys;
  }

  /** The entry at `next` stays: the hole moves on past it. */
  lemma Stay(hash: Hash, s: seq<Slot>, hole: nat, next: nat)
    requires hole < |s| && next < |s| && hole != next && Shifting(hash, s, hole, next) && Live(s[next])
    requires !Over(s, hole, next) && Next(next, |s|) != hole
    ensures Shifting(hash, s, hole, Next(next, |s|))
  {
  }

  /** A run that ends at a vacant slot leaves a table once its hole is emptied. */
  lemma Closed(hash: Hash, s: seq<Slot>, hole: nat, next: nat)
    requires hole < |s| && next < |s| && Shifting(hash, s, hole, next) && !Live(s[next])
    ensures Table(hash, s[hole := VACANT]) && Held(s[hole := VACANT]) == HeldBut(s, hole)
    ensures Count(s[hole := VACANT]) == Count(s) - 1
  {
    var t := s[hole := VACANT];
    forall i | 0 <= i < |t|
      ensures Reached(t, i)
    {
      if i != hole && Live(s[i]) {
        assert Reached(s, i);
      }
    }
    CountUpdate(s, hole, VACANT);
  }

  /** A table with a live slot taken as its hole, and the map without its key. */
  lemma Opened(hash: Hash, s: seq<Slot>, hole: nat)
    requires Table(hash, s) && hole < |s| && Live(s[hole]) && |s| > 1
    ensures Shifting(hash, s, hole, Next(hole, |s|))
    ensures Distinct(s[hole := VACANT]) && HeldBut(s, hole) == Held(s) - {s[hole].key.value}
  {
    OpenedShifting(hash, s, hole);
    hide *;
    OpenedHeld(s, hole);
  }

  lemma OpenedShifting(hash: Hash, s: seq<Slot>, hole: nat)
    requires Table(hash, s) && hole < |s| && Live(s[hole]) && |s| > 1
    ensures Shifting(hash, s, hole, Next(hole, |s|)) && Distinct(s) && Distinct(s[hole := VACANT])
    ensures HeldBut(s, hole) == Held(s[hole := VACANT])
  {
    hide Held, Reached;
  }

  lemma OpenedHeld(s: seq<Slot>, hole: nat)
    requires hole < |s| && Live(s[hole]) && Distinct(s) && Distinct(s[hole := VACANT])
    ensures Held(s[hole := VACANT]) == Held(s) - {s[hole].key.value}
  {
    hide Held;
    var t := s[hole := VACANT];
    forall k: Key
      ensures k in Held(t) <==> k in Held(s) && k != s[hole].key.value
      ensures k in Held(t) ==> Held(t)[k] == Held(s)[k]
    {
      if k in Held(t) {
        var i := FromHeld(t, k);
        InHeld(s, i);
      }
      if k in Held(s) && k != s[hole].key.value {
        var i := FromHeld(s, k);
        InHeld(t, i);
      }
    }
    assert Held(t).Keys == (Held(s) - {s[hole].key.value}).Keys;
  }

  // ---------- A table is the one its live keys build ----------

  /** A slot a lookup of the new key `x` ends at, whatever keys it passes. */
  ghost predicate Lands(s: seq<Slot>, x: Slot, p: nat)
    requires p < |s|
  {
    !Live(s[p]) && Filled(s, Home(x.hash, |s|), p)
  }

  lemma LandsOnce(s: seq<Slot>, x: Slot, p: nat, q: nat)
    requires p < |s| && q < |s| && Lands(s, x, p) && Lands(s, x, q)
    ensures p == q
  {
    assert Dist(Home(x.hash, |s|), p, |s|) >= Dist(Home(x.hash, |s|), q, |s|);
  }

  /** `x` put in the first vacant slot from its home, when there is one. */
  ghost function Placed(s: seq<Slot>, x: Slot): (t: seq<Slot>)
    ensures |t| == |s|
  {
    if p :| 0 <= p < |s| && Lands(s, x, p) then s[p := x] else s
  }

  /** A table of `n` slots built by putting `xs` in one after another. */
  ghost function Built(xs: seq<Slot>, n: nat): (t: seq<Slot>)
    ensures |t| == n
  {
    if xs == [] then seq(n, _ => VACANT) else Placed(Built(xs[..|xs| - 1], n), xs[|xs| - 1])
  }

  /** The slots of `s` less than `d` steps on from `v`, the others vacant. */
  ghost function Only(s: seq<Slot>, v: nat, d: nat): (t: seq<Slot>)
    requires v < |s|
    ensures |t| == |s|
  {
    seq(|s|, i requires 0 <= i < |s| => if Dist(v, i, |s|) < d && Live(s[i]) then s[i] else VACANT)
  }

  /** The slot `d` steps on from `v`. */
  function Ahead(v: nat, d: nat, n: nat): (p: nat)
    requires v < n && d < n
    ensures p < n && Dist(v, p, n) == d
  {
    if v + d < n then v + d else v + d - n
  }

  /** The live slots of `s` less than `d` steps on from `v`, in that order. */
  ghost function Round(s: seq<Slot>, v: nat, d: nat): seq<Slot>
    requires v < |s| && d <= |s|
  {
    if d == 0 then []
    else
      var x := s[Ahead(v, d - 1, |s|)];
      Round(s, v, d - 1) + if Live(x) then [x] else []
  }

  lemma AheadIs(v: nat, d: nat, n: nat, i: nat)
    requires v < n && d < n && i < n && Dist(v, i, n) == d
    ensures i == Ahead(v, d, n)
  {
  }

  lemma {:induction false} RoundBuilds(s: seq<Slot>, v: nat, d: nat)
    requires v < |s| && d <= |s| && !Live(s[v]) && forall i :: 0 <= i < |s| ==> Reached(s, i)
    ensures Built(Round(s, v, d), |s|) == Only(s, v, d)
  {
    hide *;
    if d == 0 {
      RoundStarts(s, v);
    } else {
      RoundBuilds(s, v, d - 1);
      RoundOn(s, v, d - 1);
      OnlyStep(s, v, d - 1);
      var p := Ahead(v, d - 1, |s|);
      if Live(s[p]) {
        BuiltOn(Round(s, v, d - 1), s[p], |s|);
        RoundLands(s, v, d - 1, p);
        PlacedAt(Only(s, v, d - 1), s[p], p);
      }
    }
  }

  lemma RoundStarts(s: seq<Slot>, v: nat)
    requires v < |s|
    ensures Round(s, v, 0) == [] && Built([], |s|) == Only(s, v, 0)
  {
  }

  lemma RoundOn(s: seq<Slot>, v: nat, d: nat)
    requires v < |s| && d < |s|
    ensures var x := s[Ahead(v, d, |s|)];
            Round(s, v, d + 1) == if Live(x) then Round(s, v, d) + [x] else Round(s, v, d)
  {
  }

  lemma BuiltOn(xs: seq<Slot>, x: Slot, n: nat)
    ensures Built(xs + [x], n) == Placed(Built(xs, n), x)
  {
    hide Placed;
    assert (xs + [x])[..|xs|] == xs;
  }

  lemma OnlyStep(s: seq<Slot>, v: nat, d: nat)
    requires v < |s| && d < |s|
    ensures var p := Ahead(v, d, |s|);
            Only(s, v, d + 1) == if Live(s[p]) then Only(s, v, d)[p := s[p]] else Only(s, v, d)
  {
    var p := Ahead(v, d, |s|);
    forall i | 0 <= i < |s| && Dist(v, i, |s|) == d
      ensures i == p
    {
      AheadIs(v, d, |s|, i);
    }
  }

  lemma RoundLands(s: seq<Slot>, v: nat, d: nat, p: nat)
    requires v < |s| && d < |s| && !Live(s[v]) && p < |s| && Dist(v, p, |s|) == d && Live(s[p]) && Reached(s, p)
    ensures Lands(Only(s, v, d), s[p], p)
  {
    var h := Home(s[p].hash, |s|);
    forall j | 0 <= j < |s| && Dist(h, j, |s|) < Dist(h, p, |s|)
      ensures Live(Only(s, v, d)[j])
    {
      assert Live(s[j]);
      assert Dist(h, v, |s|) >= Dist(h, p, |s|);
    }
  }

  lemma PlacedAt(s: seq<Slot>, x: Slot, p: nat)
    requires p < |s| && Lands(s, x, p)
    ensures Placed(s, x) == s[p := x]
  {
    forall q | 0 <= q < |s| && Lands(s, x, q)
      ensures q == p
    {
      LandsOnce(s, x, p, q);
    }
  }

  /** The live slots of `s`, in order. */
  ghost function LiveSlots(s: seq<Slot>): seq<Slot>
  {
    if s == [] then [] else LiveSlots(s[..|s| - 1]) + if Live(s[|s| - 1]) then [s[|s| - 1]] else []
  }

  lemma {:induction false} LiveConcat(a: seq<Slot>, b: seq<Slot>)
    ensures LiveSlots(a + b) == LiveSlots(a) + LiveSlots(b)
  {
    if b == [] {
      assert a + b == a;
    } else {
      var c := b[..|b| - 1];
      LiveConcat(a, c);
      assert (a + b)[..|a + b| - 1] == a + c;
    }
  }

  /** Once round from `v`: the slots from it on, and then those before it. */
  lemma {:induction false} RoundIs(s: seq<Slot>, v: nat, d: nat)
    requires v < |s| && d <= |s|
    ensures Round(s, v, d) == if v + d <= |s| then LiveSlots(s[v..v + d]) else LiveSlots(s[v..]) + LiveSlots(s[..v + d - |s|])
  {
    hide *;
    if d == 0 {
      RoundStarts(s, v);
      LiveNone(s[v..v]);
    } else {
      RoundIs(s, v, d - 1);
      RoundOn(s, v, d - 1);
      AheadAt(v, d - 1, |s|);
      if v + d <= |s| {
        LiveOn(s, v, v + d);
      } else {
        LiveOn(s, 0, v + d - |s|);
        assert v + d - |s| == 1 ==> s[v..|s|] == s[v..];
      }
    }
  }

  lemma LiveNone(s: seq<Slot>)
    requires s == []
    ensures LiveSlots(s) == []
  {
  }

  lemma AheadAt(v: nat, d: nat, n: nat)
    requires v < n && d < n
    ensures Ahead(v, d, n) == if v + d < n then v + d else v + d - n
  {
  }

  lemma LiveOn(s: seq<Slot>, a: nat, b: nat)
    requires a < b <= |s|
    ensures LiveSlots(s[a..b]) == LiveSlots(s[a..b - 1]) + if Live(s[b - 1]) then [s[b - 1]] else []
    ensures a == 0 ==> s[a..b] == s[..b] && s[a..b - 1] == s[..b - 1]
    ensures b == a + 1 ==> LiveSlots(s[a..b - 1]) == []
  {
    assert s[a..b][..b - 1 - a] == s[a..b - 1];
  }

  lemma RoundAll(s: seq<Slot>, v: nat)
    requires v < |s|
    ensures multiset(Round(s, v, |s|)) == multiset(LiveSlots(s))
  {
    hide Round, LiveSlots;
    RoundIs(s, v, |s|);
    LiveConcat(s[..v], s[v..]);
    assert s == s[..v] + s[v..];
    if v == 0 {
      assert s[v..v + |s|] == s;
    }
  }

  /** NO TRACE OF A REMOVAL: a table with a vacant slot is the one its live slots build, put into an
      empty table one after another in some order. */
  lemma TableIsBuilt(hash: Hash, s: seq<Slot>, v: nat)
    requires Table(hash, s) && v < |s| && !Live(s[v])
    ensures |Built(Round(s, v, |s|), |s|)| == |s|
    ensures forall i :: 0 <= i < |s| ==> Built(Round(s, v, |s|), |s|)[i] == if Live(s[i]) then s[i] else VACANT
    ensures multiset(Round(s, v, |s|)) == multiset(LiveSlots(s))
  {
    RoundBuilds(s, v, |s|);
    RoundAll(s, v);
  }
}
