/** `Java-LSM/src/lsm/MemTable.java`: the write buffer, with its running size. */
module MemTables {
  import opened LsmBytes
  import opened LsmTables

  // ---------------------------------------------------------------- sizes

  function CellSize(c: Cell): nat {
    match c
    case Tombstone => 0
    case Value(v) => |v|
  }

  /** What one record counts for. */
  function Weight(cd: Coding, k: int, c: Cell): nat {
    |cd.enc(k)| + CellSize(c) + 24
  }

  ghost function TotalWeight(cd: Coding, t: Table): nat
    decreases |t|
  {
    if forall k :: k !in t then 0
    else
      var k :| k in t;
      Weight(cd, k, t[k]) + TotalWeight(cd, t - {k})
  }

  lemma {:induction false} WeightTakes(cd: Coding, t: Table, k: int)
    requires k in t
    ensures TotalWeight(cd, t) == Weight(cd, k, t[k]) + TotalWeight(cd, t - {k})
    decreases |t|
  {
    hide Weight;
    var j :| j in t && TotalWeight(cd, t) == Weight(cd, j, t[j]) + TotalWeight(cd, t - {j});
    if j != k {
      WeightTakes(cd, t - {j}, k);
      WeightTakes(cd, t - {k}, j);
      assert t - {j} - {k} == t - {k} - {j};
    }
  }

  /** One update changes the total by the difference of the two records. */
  lemma WeightUpdated(cd: Coding, t: Table, k: int, c: Cell)
    ensures TotalWeight(cd, t[k := c]) == TotalWeight(cd, t) + Weight(cd, k, c) - if k in t then Weight(cd, k, t[k])
      else 0
  {
    hide Weight, TotalWeight;
    var t' := t[k := c];
    WeightTakes(cd, t', k);
    assert t' - {k} == t - {k};
    if k in t { WeightTakes(cd, t, k); } else { assert t - {k} == t; }
  }

  // ---------------------------------------------------------------- in order

  lemma Inhabited<T>(s: set<T>) returns (k: T)
    requires |s| > 0
    ensures k in s
  {
    k :| k in s;
  }

  lemma {:induction false} LeastOf(s: set<int>) returns (k: int)
    requires |s| > 0
    ensures k in s && forall j :: j in s ==> k <= j
    decreases |s|
  {
    var any := Inhabited(s);
    k := any;
    if |s - {any}| > 0 {
      var l := LeastOf(s - {any});
      assert forall j :: j in s ==> j == any || j in s - {any};
      if l < any { k := l; }
    } else {
      OnlyOne(s, any);
    }
  }

  lemma OnlyOne<T>(s: set<T>, k: T)
    requires |s - {k}| == 0
    ensures forall j :: j in s ==> j == k
  {
    assert s - {k} == {};
    assert forall j :: j in s ==> j == k || j in s - {k};
  }

  /** The entries of a sorted map in key order, as its iterator gives them. */
  method InOrder(t: Table) returns (es: seq<Entry>)
    ensures Ascending(es) && TableOf(es) == t && |es| == |t|
  {
    hide Ascending, TableOf, AllBelow;
    es := [];
    var rest := t;
    ghost var done: Table := map[];
    NoEntries();
    assert done + rest == t;
    NoEntriesBelow(es, rest);
    while |rest| > 0
      invariant Ascending(es) && TableOf(es) == done && done + rest == t && |es| + |rest| == |t|
      invariant AllBelow(es, rest)
    {
      var _ := LeastOf(rest.Keys);
      var k :| k in rest && forall j :: j in rest ==> k <= j;
      var e := Entry(k, rest[k]);
      BelowSnoc(es, rest, e);
      AscendingSnoc(es, e);
      TableSnoc(es, e);
      es := es + [e];
      EntryMoved(done, rest, k);
      done := done[k := rest[k]];
      rest := rest - {k};
    }
    NothingRests(done, rest);
  }

  lemma EntryMoved(done: Table, rest: Table, k: int)
    requires k in rest
    ensures done[k := rest[k]] + (rest - {k}) == done + rest && |rest - {k}| == |rest| - 1
  {
    assert (rest - {k})[k := rest[k]] == rest;
  }

  lemma NothingRests(done: Table, rest: Table)
    requires |rest| == 0
    ensures done + rest == done
  {
    assert rest == map[];
  }

  ghost predicate AllBelow(es: seq<Entry>, rest: Table) {
    forall e, k :: e in es && k in rest ==> e.key < k
  }

  lemma NoEntriesBelow(es: seq<Entry>, rest: Table)
    requires es == []
    ensures AllBelow(es, rest)
  {}

  lemma BelowSnoc(es: seq<Entry>, rest: Table, e: Entry)
    requires AllBelow(es, rest) && e.key in rest && forall j :: j in rest ==> e.key <= j
    ensures AllBelow(es + [e], rest - {e.key}) && forall d :: d in es ==> d.key < e.key
  {}

  lemma NoEntries()
    ensures Ascending([]) && TableOf([]) == map[]
  {}

  // ---------------------------------------------------------------- the buffer

  class MemTable {
    const cd: Coding
    var table: Table
    var approxBytes: int

    ghost predicate Valid()
      reads this
    {
      approxBytes == TotalWeight(cd, table)
    }

    constructor (cd: Coding)
      ensures Valid() && table == map[] && this.cd == cd
    {
      this.cd, table, approxBytes := cd, map[], 0;
    }

    /** `update`: a value, or a tombstone for a delete. */
    method Update(key: int, cell: Cell)
      requires Valid()
      modifies this
      ensures Valid() && table == old(table)[key := cell]
    {
      hide TotalWeight;
      WeightUpdated(cd, table, key, cell);
      var oldSize := if key in table then |cd.enc(key)| + CellSize(table[key]) + 24 else 0;
      var newSize := |cd.enc(key)| + CellSize(cell) + 24;
      table := table[key := cell];
      approxBytes := approxBytes + (newSize - oldSize);
    }

    method Clear()
      modifies this
      ensures Valid() && table == map[]
    {
      table, approxBytes := map[], 0;
    }
  }
}
