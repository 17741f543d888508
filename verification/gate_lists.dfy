/** The owners a line is asked of, listed once for each key a line can have. */
module GateLists {
  import opened Basics

  const CODE_INDENT: nat := 4
  const ELEMENT_LIMIT: nat := 255

  /** A line's key: its first byte that is no space, none of it, or that it is indented as code. */
  const KEY_NONE: nat := 256
  const KEY_INDENTED: nat := 257
  const KEYS: nat := 258

  /** An owner of a family: the bytes its gate admits, when it declares one, and how far it looks at an indented line. */
  datatype Owner = Owner(gate: Option<seq<Byte>>, maximumIndent: int)

  /** Whether a line of `key` is asked of an owner. */
  predicate Admits(o: Owner, key: nat) {
    if key == KEY_INDENTED then o.maximumIndent >= CODE_INDENT
    else o.gate.None? || (key < 256 && key in o.gate.value)
  }

  /** The first `n` owners that admit `key`, in the family's order. */
  ghost function Admitted(owners: seq<Owner>, key: nat, n: nat): (list: seq<nat>)
    requires n <= |owners|
    ensures |list| <= n && forall k :: 0 <= k < |list| ==> list[k] < n
  {
    if n == 0 then [] else Admitted(owners, key, n - 1) + if Admits(owners[n - 1], key) then [n - 1] else []
  }

  /** THEY ARE JUST THE OWNERS THAT ADMIT IT, each once, in order. */
  lemma {:induction false} AdmittedAll(owners: seq<Owner>, key: nat, n: nat)
    requires n <= |owners|
    ensures forall i: nat :: i in Admitted(owners, key, n) <==> i < n && Admits(owners[i], key)
    ensures Ascending(Admitted(owners, key, n))
  {
    if n > 0 {
      AdmittedAll(owners, key, n - 1);
      AscendsOn(Admitted(owners, key, n - 1), n - 1);
    }
  }

  ghost predicate Ascending(list: seq<nat>)
  {
    forall j, k :: 0 <= j < k < |list| ==> list[j] < list[k]
  }

  lemma AscendsOn(list: seq<nat>, x: nat)
    requires Ascending(list) && forall k :: 0 <= k < |list| ==> list[k] < x
    ensures Ascending(list + [x])
  {
  }

  /** Every owner of a family of `n`. */
  function Family(n: nat): (list: seq<nat>)
    ensures |list| == n && forall i :: 0 <= i < n ==> list[i] == i
  {
    seq(n, i requires 0 <= i < n => i)
  }

  // ---------- A table of lists ----------

  /** A key's row begins where those before it end. */
  lemma RowsApart(key: nat, other: nat, keys: nat, stride: nat)
    requires key < keys && other < keys
    ensures 0 <= key * stride && key * stride + stride <= keys * stride
    ensures key < other ==> key * stride + stride <= other * stride
    ensures other < key ==> other * stride + stride <= key * stride
  {
    TimesUp(key + 1, keys, stride);
    if key < other {
      TimesUp(key + 1, other, stride);
    } else if other < key {
      TimesUp(other + 1, key, stride);
    }
  }

  /** A row's count and then its owners. */
  ghost predicate RowIs(table: seq<nat>, at: nat, list: seq<nat>)
  {
    && at + 1 + |list| <= |table| && table[at] == |list|
    && forall k :: 0 <= k < |list| ==> table[at + 1 + k] == list[k]
  }

  /** The list key `key` has once the first `i` owners are entered, and owner `i` under the keys `under`. */
  ghost function Entered(owners: seq<Owner>, i: nat, under: set<nat>, key: nat): (list: seq<nat>)
    requires i <= |owners|
    ensures |list| <= i + 1
  {
    Admitted(owners, key, i) + if key in under then [i] else []
  }

  ghost predicate Rows(table: seq<nat>, owners: seq<Owner>, i: nat, under: set<nat>)
    requires i <= |owners|
  {
    var stride := |owners| + 1;
    && |table| == KEYS * stride
    && forall key: nat :: key < KEYS ==> RowFor(table, owners, i, under, key)
  }

  ghost predicate RowFor(table: seq<nat>, owners: seq<Owner>, i: nat, under: set<nat>, key: nat)
    requires i <= |owners|
  {
    RowIs(table, key * (|owners| + 1), Entered(owners, i, under, key))
  }

  /** Owner `i` put on one list more: within its row, as a byte. */
  method Enter(table: array<nat>, ghost owners: seq<Owner>, stride: nat, key: nat, i: nat, ghost under: set<nat>)
    requires i < |owners| <= ELEMENT_LIMIT && stride == |owners| + 1 && key < KEYS && key !in under
    requires Rows(table[..], owners, i, under)
    modifies table
    ensures Rows(table[..], owners, i, under + {key})
  {
    hide RowIs, Entered, Admitted;
    ghost var was := table[..];
    assert RowFor(was, owners, i, under, key);
    RowEnter(was, owners, i, under, key);
    RowsApart(key, key, KEYS, stride);
    var at := key * stride;
    assert was[at] == table[at];
    assert i < ELEMENT_LIMIT && table[at] + 1 <= ELEMENT_LIMIT;
    table[at + 1 + table[at]] := i;
    table[at] := table[at] + 1;
    assert table[..] == was[at + 1 + was[at] := i][at := was[at] + 1];
    ghost var now, entered := table[..], under + {key};
    forall k: nat | k < KEYS
      ensures RowFor(now, owners, i, entered, k)
    {
      assert RowFor(was, owners, i, under, k);
      if k != key {
        RowsApart(key, k, KEYS, stride);
        RowsApart(k, k, KEYS, stride);
        RowOther(was, owners, i, under, key, k);
      }
    }
  }

  lemma RowEnter(table: seq<nat>, owners: seq<Owner>, i: nat, under: set<nat>, key: nat)
    requires i < |owners| && key < KEYS && |table| == KEYS * (|owners| + 1) && key !in under
    requires RowFor(table, owners, i, under, key)
    ensures var at := key * (|owners| + 1);
            && at + 1 + i < |table| && table[at] <= i
            && RowFor(table[at + 1 + table[at] := i][at := table[at] + 1], owners, i, under + {key}, key)
  {
    RowsApart(key, key, KEYS, |owners| + 1);
    assert Entered(owners, i, under + {key}, key) == Entered(owners, i, under, key) + [i];
  }

  lemma RowOther(table: seq<nat>, owners: seq<Owner>, i: nat, under: set<nat>, key: nat, other: nat)
    requires i < |owners| && key < KEYS && other < KEYS && key != other && |table| == KEYS * (|owners| + 1)
    requires RowFor(table, owners, i, under, other) && key * (|owners| + 1) < |table| && table[key * (|owners| + 1)] <= i
    ensures var at := key * (|owners| + 1);
            && at + 1 + table[at] < |table|
            && RowFor(table[at + 1 + table[at] := i][at := table[at] + 1], owners, i, under + {key}, other)
  {
    RowsApart(key, other, KEYS, |owners| + 1);
    RowsApart(other, other, KEYS, |owners| + 1);
  }

  /** An owner is last on a list just when it has been put there. */
  lemma RowLast(table: seq<nat>, owners: seq<Owner>, i: nat, under: set<nat>, key: nat)
    requires i < |owners| && key < KEYS && Rows(table, owners, i, under)
    ensures var at := key * (|owners| + 1);
            && at + 1 + i < |table| && table[at] <= i + 1
            && (table[at] == 0 || table[at + table[at]] != i <==> key !in under)
  {
    RowsApart(key, key, KEYS, |owners| + 1);
    assert RowFor(table, owners, i, under, key);
    var at, list := key * (|owners| + 1), Entered(owners, i, under, key);
    if key !in under && table[at] > 0 {
      assert table[at + 1 + (table[at] - 1)] == list[table[at] - 1] < i;
    }
    if key in under {
      assert table[at + 1 + (table[at] - 1)] == list[table[at] - 1] == i;
    }
  }

  /** An owner put on all the lists that are its own is one more owner entered. */
  lemma RowsNext(table: seq<nat>, owners: seq<Owner>, i: nat, under: set<nat>)
    requires i < |owners| && Rows(table, owners, i, under)
    requires forall key: nat :: key < KEYS ==> (key in under <==> Admits(owners[i], key))
    ensures Rows(table, owners, i + 1, {})
  {
    hide RowIs, Admits;
    var next, none: set<nat> := i + 1, {};
    forall key: nat | key < KEYS
      ensures RowFor(table, owners, next, none, key)
    {
      assert RowFor(table, owners, i, under, key);
      assert Entered(owners, next, none, key) == Entered(owners, i, under, key);
    }
  }

  /** Whether a family has a table: some owner of it declares a gate. */
  method IsGated(owners: seq<Owner>) returns (gated: bool)
    ensures gated <==> exists i :: 0 <= i < |owners| && owners[i].gate.Some?
  {
    gated := false;
    for i := 0 to |owners|
      invariant gated <==> exists k :: 0 <= k < i && owners[k].gate.Some?
    {
      if owners[i].gate.Some? {
        gated := true;
      }
    }
  }

  /** THE LINE NAMES ITS CANDIDATES: the list of each key is of the owners that admit it, in the family's order, in
      the bytes a family of so many owners was measured to take. */
  method ProjectGateLists(owners: seq<Owner>) returns (table: array<nat>)
    requires |owners| <= ELEMENT_LIMIT
    ensures fresh(table) && table.Length == KEYS * (|owners| + 1)
    ensures forall key: nat :: key < KEYS ==> RowIs(table[..], key * (|owners| + 1), Admitted(owners, key, |owners|))
  {
    hide Rows, Admits, Admitted, RowIs;
    var stride := |owners| + 1;
    table := new nat[KEYS * stride](_ => 0);
    NoRows(table[..], owners);
    for i := 0 to |owners|
      invariant Rows(table[..], owners, i, {})
    {
      ghost var under := EnterOwner(table, owners, stride, i);
      RowsNext(table[..], owners, i, under);
    }
    RowsAll(table[..], owners);
  }

  lemma NoRows(table: seq<nat>, owners: seq<Owner>)
    requires |table| == KEYS * (|owners| + 1) && forall k :: 0 <= k < |table| ==> table[k] == 0
    ensures Rows(table, owners, 0, {})
  {
    var none: set<nat> := {};
    forall key: nat | key < KEYS
      ensures RowFor(table, owners, 0, none, key)
    {
      RowsApart(key, key, KEYS, |owners| + 1);
    }
  }

  lemma RowsAll(table: seq<nat>, owners: seq<Owner>)
    requires Rows(table, owners, |owners|, {})
    ensures forall key: nat :: key < KEYS ==> RowIs(table, key * (|owners| + 1), Admitted(owners, key, |owners|))
  {
    hide RowIs;
    forall key: nat | key < KEYS
      ensures RowIs(table, key * (|owners| + 1), Admitted(owners, key, |owners|))
    {
      assert RowFor(table, owners, |owners|, {}, key);
      assert Entered(owners, |owners|, {}, key) == Admitted(owners, key, |owners|);
    }
  }

  /** Owner `i` put on the list of every key it admits, once. */
  method EnterOwner(table: array<nat>, owners: seq<Owner>, stride: nat, i: nat) returns (ghost under: set<nat>)
    requires i < |owners| <= ELEMENT_LIMIT && stride == |owners| + 1 && Rows(table[..], owners, i, {})
    modifies table
    ensures Rows(table[..], owners, i, under)
    ensures forall key: nat :: key < KEYS ==> (key in under <==> Admits(owners[i], key))
  {
    hide Rows;
    under := {};
    var owner := owners[i];
    if owner.gate.None? {
      var key := 0;
      while key <= KEY_NONE
        invariant key <= KEY_NONE + 1 && Rows(table[..], owners, i, under)
        invariant forall k: nat :: k in under <==> k < key
      {
        Enter(table, owners, stride, key, i, under);
        under := under + {key};
        key := key + 1;
      }
    } else {
      var bytes := owner.gate.value;
      for c := 0 to |bytes|
        invariant Rows(table[..], owners, i, under)
        invariant forall k: nat :: k in under <==> k in bytes[..c]
      {
        var at := bytes[c] * stride;
        RowLast(table[..], owners, i, under, bytes[c]);
        if table[at] == 0 || table[at + table[at]] != i {
          Enter(table, owners, stride, bytes[c], i, under);
          under := under + {bytes[c]};
        }
        assert bytes[..c + 1] == bytes[..c] + [bytes[c]];
      }
      assert bytes[..|bytes|] == bytes;
    }
    if owner.maximumIndent >= CODE_INDENT {
      Enter(table, owners, stride, KEY_INDENTED, i, under);
      under := under + {KEY_INDENTED};
    }
  }

  /** The key of a line whose first byte that is no space is at `first`, or at its end, `indent` columns in. */
  function GateKey(line: seq<Byte>, first: nat, indent: int): (key: nat)
    ensures key < KEYS
  {
    if indent >= CODE_INDENT then KEY_INDENTED else if first < |line| then line[first] else KEY_NONE
  }

  /** The owners a line of `key` is asked of: those that admit it, or with no table all the family. */
  method GateCandidates(owners: seq<Owner>, table: array?<nat>, key: nat) returns (list: seq<nat>)
    requires key < KEYS
    requires table != null ==>
               && table.Length == KEYS * (|owners| + 1)
               && forall k: nat :: k < KEYS ==> RowIs(table[..], k * (|owners| + 1), Admitted(owners, k, |owners|))
    ensures table != null ==> forall i: nat :: i in list <==> i < |owners| && Admits(owners[i], key)
    ensures table == null ==> forall i: nat :: i in list <==> i < |owners|
    ensures Ascending(list)
  {
    hide *;
    if table == null {
      FamilyAll(|owners|);
      return Family(|owners|);
    }
    var at := key * (|owners| + 1);
    RowsApart(key, key, KEYS, |owners| + 1);
    RowList(table[..], at, Admitted(owners, key, |owners|));
    list := table[at + 1..at + 1 + table[at]];
    AdmittedAll(owners, key, |owners|);
  }

  /** An owner is asked of a line: of an indented one when it looks so far, and else of one with its gate's byte first;
      one with no gate is asked of every line that is not indented. */
  predicate Asks(o: Owner, line: seq<Byte>, first: nat, indent: int)
  {
    if indent >= CODE_INDENT then o.maximumIndent >= CODE_INDENT
    else o.gate.None? || (first < |line| && line[first] in o.gate.value)
  }

  /** The owners a line is asked of by its key, `first` being its first byte that is no space. */
  method LineCandidates(owners: seq<Owner>, table: array?<nat>, line: seq<Byte>, first: nat, indent: int) returns (list: seq<nat>)
    requires table != null ==>
               && table.Length == KEYS * (|owners| + 1)
               && forall k: nat :: k < KEYS ==> RowIs(table[..], k * (|owners| + 1), Admitted(owners, k, |owners|))
    ensures table != null ==> forall i: nat :: i in list <==> i < |owners| && Asks(owners[i], line, first, indent)
    ensures table == null ==> forall i: nat :: i in list <==> i < |owners|
    ensures Ascending(list)
  {
    hide RowIs, Admitted, Ascending;
    list := GateCandidates(owners, table, GateKey(line, first, indent));
    forall i: nat | i < |owners|
      ensures Admits(owners[i], GateKey(line, first, indent)) <==> Asks(owners[i], line, first, indent)
    {
    }
  }

  lemma FamilyAll(n: nat)
    ensures Ascending(Family(n)) && forall i: nat :: i in Family(n) <==> i < n
  {
    forall i: nat | i < n
      ensures i in Family(n)
    {
      assert Family(n)[i] == i;
    }
  }

  lemma RowList(table: seq<nat>, at: nat, list: seq<nat>)
    requires RowIs(table, at, list)
    ensures at + 1 + table[at] <= |table| && table[at + 1..at + 1 + table[at]] == list
  {
  }
}
