/** What a directory of `Java-LSM` holds: tables by generation, and the operations in its log. */
module LsmRecovery {
  import opened LsmBytes
  import opened LsmTables
  import opened BloomFilters
  import opened SSTableFormat
  import opened WriteAheadLogs

  // ---------------------------------------------------------------- operations

  function CellOf(op: Op): Cell {
    match op
    case Put(_, v) => Value(v)
    case Delete(_) => Tombstone
  }

  /** The write buffer after a run of operations. */
  function Applied(ops: seq<Op>): Table {
    if ops == [] then map[]
    else
      var last := ops[|ops| - 1];
      Applied(ops[..|ops| - 1])[last.key := CellOf(last)]
  }

  lemma AppliedSnoc(ops: seq<Op>, op: Op)
    ensures Applied(ops + [op]) == Applied(ops)[op.key := CellOf(op)]
  {
    assert (ops + [op])[..|ops|] == ops;
  }

  lemma {:induction false} AppliedKeys(ops: seq<Op>, n: nat)
    requires n <= |ops|
    ensures Applied(ops[..n]).Keys <= Applied(ops).Keys
    decreases |ops|
  {
    if n == |ops| {
      assert ops[..n] == ops;
    } else {
      var front := ops[..|ops| - 1];
      AppliedKeys(front, n);
      assert front[..n] == ops[..n];
    }
  }

  // ---------------------------------------------------------------- keys

  ghost predicate CodesAll(cd: Coding, t: Table) {
    forall k :: k in t ==> Codable(cd, k)
  }

  /** The write buffer holds the keys of the operations, no others. */
  lemma {:induction false} AppliedCodes(cd: Coding, ops: seq<Op>)
    ensures CodesAll(cd, Applied(ops)) <==> Readable(cd, ops)
  {
    if ops != [] {
      var front, last := ops[..|ops| - 1], ops[|ops| - 1];
      AppliedCodes(cd, front);
      assert Applied(ops) == Applied(front)[last.key := CellOf(last)];
      assert forall k :: k in Applied(front) ==> k in Applied(ops);
      assert ops == front + [last];
    }
  }

  lemma EntriesCode(cd: Coding, es: seq<Entry>)
    requires Ascending(es)
    ensures CodesAll(cd, TableOf(es)) <==> Keyed(cd, es)
  {
    forall i | 0 <= i < |es| ensures es[i].key in TableOf(es) { InTable(es, i); }
    forall k | k in TableOf(es) ensures exists i :: 0 <= i < |es| && es[i].key == k { OfTable(es, k); }
  }

  lemma {:induction false} LayersCode(cd: Coding, ts: seq<Table>)
    requires forall i :: 0 <= i < |ts| ==> CodesAll(cd, ts[i])
    ensures CodesAll(cd, Layered(ts))
  {
    if ts != [] { LayersCode(cd, ts[1..]); }
  }

  // ---------------------------------------------------------------- sizes

  lemma {:induction false} SubsetSize<T>(a: set<T>, b: set<T>)
    requires a <= b
    ensures |a| <= |b|
  {
    if |a| > 0 {
      var x :| x in a;
      SubsetSize(a - {x}, b - {x});
    }
  }

  lemma FewerKeys(t: Table, u: Table)
    requires t.Keys <= u.Keys
    ensures |t| <= |u|
  {
    SubsetSize(t.Keys, u.Keys);
    assert |t.Keys| == |t| && |u.Keys| == |u|;
  }

  lemma LayerKeys(lower: Table, t: Table, u: Table)
    requires t.Keys <= u.Keys
    ensures |lower + t| <= |lower + u| && |t| <= |lower + t| && |lower| <= |lower + t|
  {
    FewerKeys(lower + t, lower + u);
    FewerKeys(t, lower + t);
    FewerKeys(lower, lower + t);
  }

  // ---------------------------------------------------------------- the directory

  type Files = map<int, seq<Byte>>

  /** One table file: its generation, and what was written to it. */
  datatype Shelf = Shelf(gen: int, entries: seq<Entry>, filter: Filter)

  ghost predicate OnFile(cd: Coding, files: Files, s: Shelf) {
    && s.gen >= 0 && s.gen in files && files[s.gen] == TableFile(cd, s.entries, s.filter)
    && Writable(cd, s.entries, s.filter)
  }

  ghost predicate Descending(shelves: seq<Shelf>) {
    forall i, j :: 0 <= i < j < |shelves| ==> shelves[i].gen > shelves[j].gen
  }

  ghost predicate HasGen(shelves: seq<Shelf>, g: int) {
    exists i :: 0 <= i < |shelves| && shelves[i].gen == g
  }

  /** The files are exactly the shelves, newest first. */
  ghost predicate OnDisk(cd: Coding, files: Files, shelves: seq<Shelf>) {
    && Descending(shelves)
    && (forall i :: 0 <= i < |shelves| ==> OnFile(cd, files, shelves[i]))
    && (forall g :: g in files ==> HasGen(shelves, g))
  }

  ghost function TablesOf(shelves: seq<Shelf>): (ts: seq<Table>)
    ensures |ts| == |shelves|
  {
    seq(|shelves|, i requires 0 <= i < |shelves| => TableOf(shelves[i].entries))
  }

  lemma TablesCons(s: Shelf, shelves: seq<Shelf>)
    ensures TablesOf([s] + shelves) == [TableOf(s.entries)] + TablesOf(shelves)
  {}

  /** A newer file joins the directory. */
  lemma ShelfAdded(cd: Coding, files: Files, shelves: seq<Shelf>, s: Shelf)
    requires OnDisk(cd, files, shelves) && s.gen >= 0 && Writable(cd, s.entries, s.filter)
    requires forall i :: 0 <= i < |shelves| ==> shelves[i].gen < s.gen
    ensures OnDisk(cd, files[s.gen := TableFile(cd, s.entries, s.filter)], [s] + shelves)
    ensures Layered(TablesOf([s] + shelves)) == Layered(TablesOf(shelves)) + TableOf(s.entries)
  {
    hide Writable, TableFile, TableOf;
    var files', shelves' := files[s.gen := TableFile(cd, s.entries, s.filter)], [s] + shelves;
    forall g | g in files' ensures HasGen(shelves', g) {
      if g == s.gen {
        assert shelves'[0].gen == g;
      } else {
        var i :| 0 <= i < |shelves| && shelves[i].gen == g;
        assert shelves'[i + 1].gen == g;
      }
    }
    assert forall i :: 0 <= i < |shelves| ==> OnFile(cd, files, shelves[i]);
    TablesCons(s, shelves);
    LayerCons(TableOf(s.entries), TablesOf(shelves));
  }

  /** A directory of one file. */
  lemma OneShelf(cd: Coding, files: Files, s: Shelf)
    requires OnFile(cd, files, s) && forall g :: g in files ==> g == s.gen
    ensures OnDisk(cd, files, [s]) && Layered(TablesOf([s])) == TableOf(s.entries)
  {
    hide OnFile, TableOf;
    assert [s][0].gen == s.gen;
    assert TablesOf([s]) == [TableOf(s.entries)];
    LayerOne(TableOf(s.entries));
  }

  /** The oldest file left is the last shelf. */
  lemma OldestIsLast(cd: Coding, files: Files, shelves: seq<Shelf>, rest: Files, n: nat, g: int)
    requires OnDisk(cd, files, shelves) && n <= |shelves|
    requires forall h :: h in rest <==> h in files && HasGen(shelves[..n], h)
    requires g in rest && forall h :: h in rest ==> g <= h
    ensures n > 0 && shelves[n - 1].gen == g && OnFile(cd, files, shelves[n - 1])
    ensures forall h :: h in rest && h != g <==> h in files && HasGen(shelves[..n - 1], h)
  {
    hide OnFile, HasGen;
    var i := ShelfWith(shelves, n, g);
    var last := shelves[n - 1].gen;
    assert OnFile(cd, files, shelves[n - 1]);
    FileOf(cd, files, shelves[n - 1]);
    HereIsGen(shelves, n, n - 1);
    assert last in rest;
    assert i == n - 1;
    forall h ensures HasGen(shelves[..n], h) && h != g <==> HasGen(shelves[..n - 1], h) {
      GensWithoutLast(shelves, n, h);
    }
  }

  lemma ShelfWith(shelves: seq<Shelf>, n: nat, g: int) returns (i: nat)
    requires n <= |shelves| && HasGen(shelves[..n], g)
    ensures i < n && shelves[i].gen == g
  {
    i :| 0 <= i < n && shelves[..n][i].gen == g;
  }

  lemma HereIsGen(shelves: seq<Shelf>, n: nat, i: nat)
    requires i < n <= |shelves|
    ensures HasGen(shelves[..n], shelves[i].gen)
  {
    assert shelves[..n][i].gen == shelves[i].gen;
  }

  lemma GensWithoutLast(shelves: seq<Shelf>, n: nat, h: int)
    requires Descending(shelves) && 0 < n <= |shelves|
    ensures HasGen(shelves[..n], h) && h != shelves[n - 1].gen <==> HasGen(shelves[..n - 1], h)
  {
    hide HasGen;
    if HasGen(shelves[..n], h) && h != shelves[n - 1].gen {
      var j := ShelfWith(shelves, n, h);
      HereIsGen(shelves, n - 1, j);
    }
    if HasGen(shelves[..n - 1], h) {
      var j := ShelfWith(shelves, n - 1, h);
      HereIsGen(shelves, n, j);
    }
  }

  lemma FileOf(cd: Coding, files: Files, s: Shelf)
    requires OnFile(cd, files, s)
    ensures s.gen in files && s.gen >= 0 && files[s.gen] == TableFile(cd, s.entries, s.filter)
    ensures Writable(cd, s.entries, s.filter)
  {}
}
