/** `Java-LSM/src/lsm/LsmTree.java`: the store over its log, its write buffer and its tables, against
    a plain map.  The directory is a map from generation to file content. */
module LsmTrees {
  import opened LsmBytes
  import opened LsmTables
  import opened SSTableFormat
  import opened SSTables
  import opened WriteAheadLogs
  import opened MemTables
  import opened LsmRecovery
  import opened Options

  ghost function ShelfOf(s: SSTable): Shelf {
    Shelf(s.gen, s.entries, s.bloom)
  }

  ghost function ShelvesOf(ss: seq<SSTable>): (r: seq<Shelf>)
    ensures |r| == |ss|
  {
    seq(|ss|, i requires 0 <= i < |ss| => ShelfOf(ss[i]))
  }

  ghost predicate AllOpen(cd: Coding, ss: seq<SSTable>) {
    forall i :: 0 <= i < |ss| ==> ss[i].Valid() && ss[i].cd == cd
  }

  /** What the tables hold, the newest deciding. */
  ghost function Stacked(ss: seq<SSTable>): Table {
    Layered(TablesOf(ShelvesOf(ss)))
  }

  /** The write buffer over the tables. */
  function Over(lower: Table, t: Table): Table {
    lower + t
  }

  /** How a Bloom filter for `n` keys is sized: a floating-point computation, so any choice. */
  method Sizing(n: nat) returns (numBits: nat, numHashes: nat)
    ensures 64 <= numBits < 64 * MAX_INT && 1 <= numHashes <= MAX_INT
  {
    assert 64 <= 64 < 64 * MAX_INT;
    numBits :| 64 <= numBits < 64 * MAX_INT;
    assert 1 <= 1 <= MAX_INT;
    numHashes :| 1 <= numHashes <= MAX_INT;
  }

  class LsmTree {
    const cd: Coding
    const memtableLimitBytes: int
    const compactionThreshold: int
    const wal: WriteAheadLog
    var memtable: MemTable
    var sstables: seq<SSTable>        // newest first
    var maxGen: nat
    var files: Files
    ghost var logged: seq<Op>

    /** Everything recorded, tombstones included. */
    ghost function View(): Table
      reads this, memtable
    {
      Over(Stacked(sstables), memtable.table)
    }

    /** The plain map the store stands for. */
    ghost function Now(): map<int, Bytes>
      reads this, memtable
    {
      Contents(View())
    }

    ghost predicate TablesOk()
      reads `sstables, `files, `maxGen
    {
      && AllOpen(cd, sstables) && OnDisk(cd, files, ShelvesOf(sstables))
      && forall i :: 0 <= i < |sstables| ==> sstables[i].gen <= maxGen
    }

    /** The number of tables after a flush that found `n`: one more, or a single one once that is more
        than the threshold. */
    function AfterFlush(n: nat): (m: nat)
      ensures m <= 1 || m <= compactionThreshold
    {
      if n + 1 > compactionThreshold then 1 else n + 1
    }

    ghost predicate Valid()
      reads this, memtable, wal
    {
      && TablesOk() && memtable.cd == cd && wal.cd == cd && memtable.Valid() && |View()| <= MAX_ENTRIES
      && CodesAll(cd, memtable.table)
      && (memtable.table == map[] ==> Restores())
    }

    /** The log as it is restores the write buffer. */
    ghost predicate Restores()
      reads `memtable, `logged, memtable, wal
    {
      ReplayOf(cd, wal.file) == Outcome(logged, true) && Applied(logged) == memtable.table
    }

    /** And so it will when more is appended: it consists of whole records. */
    ghost predicate Durable()
      reads `memtable, `logged, memtable, wal
    {
      wal.file == Log(cd, logged) && Applied(logged) == memtable.table
    }

    // -------------------------------------------------------------- reads

    /** `get`. */
    method Get(key: int) returns (r: Option<Bytes>)
      requires Valid()
      ensures r == if key in Now() then Some(Now()[key]) else None
    {
      hide OnDisk, Layered, TablesOf, ShelvesOf, Contents, AllOpen, Over, TableOf, SSTable.Valid;
      ContentsAt(View(), key);
      OverAt(Stacked(sstables), memtable.table, key);
      if key in memtable.table {
        return if memtable.table[key].Value? then Some(memtable.table[key].value) else None;
      }
      ghost var ts := TablesOf(ShelvesOf(sstables));
      var i := 0;
      while i < |sstables|
        invariant 0 <= i <= |sstables|
        invariant forall j :: 0 <= j < i ==> key !in ts[j]
      {
        TableHere(sstables, i);
        OpenHere(cd, sstables, i);
        var found, _ := sstables[i].Get(key);
        if found.Some? {
          FirstDecides(ts, i, key);
          return if found.value.Value? then Some(found.value.value) else None;
        }
        i := i + 1;
      }
      NoneDecides(ts, key);
      return None;
    }

    /** Newer tables overwrite older ones, within a range. */
    method MergeTables(from: Option<int>, to: Option<int>) returns (merged: Table)
      requires TablesOk()
      ensures merged == Within(Stacked(sstables), from, to)
    {
      hide OnDisk, TableOf, Within, Picked, AllOpen, TablesOf, ShelvesOf, Layered, SSTable.Valid;
      ghost var ts := TablesOf(ShelvesOf(sstables));
      merged := map[];
      var i := |sstables|;
      EmptyWithin(ts, from, to);
      while i > 0
        invariant 0 <= i <= |sstables| && merged == Within(Layered(ts[i..]), from, to)
      {
        i := i - 1;
        TableHere(sstables, i);
        LayersWithin(ts, from, to, i);
        OpenHere(cd, sstables, i);
        var es := sstables[i].Range(from, to);
        PickedIs(sstables[i].entries, from, to);
        merged := PutAll(merged, es);
      }
      assert ts[0..] == ts;
    }

    /** `scan`: the live entries in a range, in key order. */
    method Scan(from: Option<int>, to: Option<int>) returns (out: seq<Entry>)
      requires Valid()
      ensures Ascending(out) && TableOf(out) == Alive(Within(View(), from, to))
      ensures Contents(TableOf(out)) == map k | k in Now() && InRange(k, from, to) :: Now()[k]
    {
      hide OnDisk, Layered, TableOf, Picked, Ascending, Within, AllOpen, TablesOf, ShelvesOf, Over,
           Contents, Alive;
      var merged := MergeTables(from, to);
      var buffered := InOrder(memtable.table);
      var i := 0;
      ghost var before := merged;
      NonePickedYet(before, buffered, from, to);
      while i < |buffered|
        invariant 0 <= i <= |buffered|
        invariant merged == before + TableOf(Picked(buffered[..i], from, to))
      {
        var e := buffered[i];
        OneMorePicked(before, buffered, from, to, i);
        i := i + 1;
        if from.Some? && e.key < from.value { continue; }
        if to.Some? && e.key >= to.value { continue; }
        merged := merged[e.key := e.cell];
      }
      assert buffered[..i] == buffered;
      PickedIs(buffered, from, to);
      OverWithin(Stacked(sstables), memtable.table, from, to);
      out := LiveOf(merged);
      ScanContents(View(), from, to);
    }

    // -------------------------------------------------------------- writes

    /** `put`. */
    method Put(key: int, value: Bytes)
      requires Valid() && Codable(cd, key) && |View()| < MAX_ENTRIES
      modifies this, memtable, wal
      ensures Valid() && memtable == old(memtable) && Now() == old(Now())[key := value]
      ensures old(Durable()) ==> Durable()
      ensures memtable.table == map[] || TotalWeight(cd, memtable.table) < memtableLimitBytes
      ensures |View()| <= |old(View())| + 1
      ensures var recorded := old(memtable.table)[key := Value(value)];
        if TotalWeight(cd, recorded) < memtableLimitBytes
        then memtable.table == recorded && sstables == old(sstables) &&
             wal.file == old(wal.file) + Record(cd, OpOf(key, Value(value)))
        else memtable.table == map[] && |sstables| == AfterFlush(|old(sstables)|) && wal.file == []
    {
      hide TablesOk, Stacked, Contents, Record, Log, Applied, TotalWeight, Over;
      Recorded(logged, key, Value(value), cd);
      OneMore(Stacked(sstables), memtable.table, key, Value(value));
      ContentsPut(View(), key, value);
      wal.Append(key, value, false);
      logged := logged + [OpOf(key, Value(value))];
      memtable.Update(key, Value(value));
      assert key in memtable.table;
      MaybeFlush();
    }

    /** `delete`: a tombstone is recorded. */
    method Delete(key: int)
      requires Valid() && Codable(cd, key) && |View()| < MAX_ENTRIES
      modifies this, memtable, wal
      ensures Valid() && memtable == old(memtable) && Now() == old(Now()) - {key}
      ensures old(Durable()) ==> Durable()
      ensures memtable.table == map[] || TotalWeight(cd, memtable.table) < memtableLimitBytes
      ensures |View()| <= |old(View())| + 1
      ensures var recorded := old(memtable.table)[key := Tombstone];
        if TotalWeight(cd, recorded) < memtableLimitBytes
        then memtable.table == recorded && sstables == old(sstables) &&
             wal.file == old(wal.file) + Record(cd, OpOf(key, Tombstone))
        else memtable.table == map[] && |sstables| == AfterFlush(|old(sstables)|) && wal.file == []
    {
      hide TablesOk, Stacked, Contents, Record, Log, Applied, TotalWeight, Over;
      Recorded(logged, key, Tombstone, cd);
      OneMore(Stacked(sstables), memtable.table, key, Tombstone);
      ContentsDeleted(View(), key);
      wal.Append(key, [], true);
      logged := logged + [OpOf(key, Tombstone)];
      memtable.Update(key, Tombstone);
      assert key in memtable.table;
      MaybeFlush();
    }

    method MaybeFlush()
      requires Valid()
      modifies this, memtable, wal
      ensures Valid() && memtable == old(memtable) && Now() == old(Now())
      ensures old(Durable()) ==> Durable()
      ensures memtable.table == map[] || TotalWeight(cd, memtable.table) < memtableLimitBytes
      ensures |View()| <= |old(View())|
      ensures if TotalWeight(cd, old(memtable.table)) < memtableLimitBytes
              then memtable.table == old(memtable.table) && sstables == old(sstables) && wal.file == old(wal.file)
              else if old(memtable.table) == map[] then memtable.table == map[] && |sstables| == |old(sstables)|
              else memtable.table == map[] && |sstables| == AfterFlush(|old(sstables)|) && wal.file == []
    {
      if memtable.approxBytes >= memtableLimitBytes { Flush(); }
    }

    // -------------------------------------------------------------- flush and compaction

    /** `flush`: the write buffer becomes the newest table, and the log starts afresh. */
    method Flush()
      requires Valid()
      modifies this, memtable, wal
      ensures Valid() && memtable == old(memtable) && memtable.table == map[] && Now() == old(Now())
      ensures old(Durable()) || |old(memtable.table)| > 0 ==> Durable()
      ensures Durable() ==> wal.file == []
      ensures |View()| <= |old(View())|
      ensures if old(memtable.table) == map[]
              then sstables == old(sstables) && files == old(files) && wal.file == old(wal.file)
              else |sstables| == AfterFlush(|old(sstables)|) && wal.file == []
    {
      hide TablesOk, Stacked, Contents, Log, Applied, Over, TotalWeight, TableOf, Ascending;
      ghost var lower, buffer := Stacked(sstables), memtable.table;
      OverSizes(lower, buffer);
      NothingLogged(cd);
      if |memtable.table| == 0 {
        if Durable() { NoOperations(cd, logged); }
        return;
      }
      var es := InOrder(memtable.table);
      EntriesCode(cd, es);
      AddTable(es);
      memtable.Clear();
      wal.Truncate();
      logged := [];
      OverNothing(Over(lower, buffer));
      MaybeCompact();
    }

    /** A new table goes in front of the others. */
    method AddTable(es: seq<Entry>)
      requires TablesOk() && Keyed(cd, es) && Ascending(es) && |es| <= MAX_ENTRIES
      modifies `sstables, `files, `maxGen
      ensures TablesOk() && Stacked(sstables) == Over(old(Stacked(sstables)), TableOf(es))
      ensures |sstables| == |old(sstables)| + 1
    {
      hide OnDisk, Writable, TableFile, TableOf, AllOpen, ShelvesOf, TablesOf, Layered, SSTable.Valid;
      maxGen := maxGen + 1;
      var gen := maxGen;
      var numBits, numHashes := Sizing(|es|);
      var file, f := SSTables.Write(cd, es, numBits, numHashes);
      GensBelow(sstables, gen);
      ShelfAdded(cd, files, ShelvesOf(sstables), Shelf(gen, es, f));
      files := files[gen := file];
      var table := new SSTable(cd, gen, file, es, f);
      ShelvesCons(cd, table, sstables);
      sstables := [table] + sstables;
    }

    method MaybeCompact()
      requires Valid()
      modifies this
      ensures Valid() && memtable == old(memtable) && Now() == old(Now()) && logged == old(logged)
      ensures |View()| <= |old(View())|
      ensures if |old(sstables)| > compactionThreshold
              then |sstables| <= 1 && (|old(sstables)| >= 1 ==> |sstables| == 1)
              else sstables == old(sstables) && files == old(files)
    {
      if |sstables| > compactionThreshold { Compact(); }
    }

    /** `compact`: one table for all, the newest version of each key, no tombstones. */
    method Compact()
      requires Valid()
      modifies this
      ensures Valid() && memtable == old(memtable) && Now() == old(Now()) && logged == old(logged)
      ensures |sstables| <= 1
      ensures |old(sstables)| > 1 ==> Stacked(sstables) == Alive(old(Stacked(sstables)))
      ensures |View()| <= |old(View())|
      ensures |old(sstables)| >= 1 ==> |sstables| == 1
      ensures |old(sstables)| <= 1 ==> sstables == old(sstables) && files == old(files)
    {
      hide Contents, TableOf, Over, Alive, Within, Stacked, MemTable.Valid, Restores;
      if |sstables| <= 1 { return; }
      ghost var lower := Stacked(sstables);
      OverSizes(lower, memtable.table);
      AliveFewer(lower, memtable.table);
      WithinAll(lower);
      var merged := MergeTables(None, None);
      var live := LiveOf(merged);
      StackedCodes(cd, sstables);
      AliveCodes(cd, lower);
      EntriesCode(cd, live);
      ReplaceTables(live, |merged|);
      AliveUnder(lower, memtable.table);
    }

    /** One table in place of all, its filter sized for `n` keys. */
    method ReplaceTables(live: seq<Entry>, n: nat)
      requires TablesOk() && Keyed(cd, live) && Ascending(live) && |live| <= MAX_ENTRIES
      modifies `sstables, `files, `maxGen
      ensures TablesOk() && |sstables| == 1 && Stacked(sstables) == TableOf(live)
    {
      hide Writable, TableFile, TableOf, Layered, OnDisk, AllOpen, TablesOf, ShelvesOf, HasGen, SSTable.Valid;
      var gen := maxGen + 1;
      maxGen := gen;
      var numBits, numHashes := Sizing(n);
      var file, f := SSTables.Write(cd, live, numBits, numHashes);
      ghost var shelf := Shelf(gen, live, f);
      OldFiles(cd, files, sstables, gen);
      files := files[gen := file];
      var obsolete := sstables;
      var table := new SSTable(cd, gen, file, live, f);
      sstables := [table];
      Remove(obsolete, gen);
      OneShelf(cd, files, shelf);
      NoTables(cd);
      ShelvesCons(cd, table, []);
      assert [table] + [] == [table] && [shelf] + [] == [shelf];
    }

    /** The files of merged tables are deleted. */
    method Remove(obsolete: seq<SSTable>, gen: int)
      requires gen in files && (forall i :: 0 <= i < |obsolete| ==> obsolete[i].gen < gen)
      requires forall g :: g in files ==> g == gen || HasGen(ShelvesOf(obsolete), g)
      modifies this`files
      ensures gen in files && files[gen] == old(files)[gen] && forall g :: g in files ==> g == gen
    {
      hide HasGen, ShelvesOf;
      var i := 0;
      while i < |obsolete|
        invariant 0 <= i <= |obsolete|
        invariant gen in files && files[gen] == old(files)[gen]
        invariant forall g :: g in files ==> g == gen || HasGen(ShelvesOf(obsolete), g)
        invariant forall j :: 0 <= j < i ==> obsolete[j].gen !in files
      {
        files := files - {obsolete[i].gen};
        i := i + 1;
      }
      NoneOfOld(files, obsolete, gen);
    }

    // -------------------------------------------------------------- opening

    /** Opening a directory: its tables by generation, and the log replayed as far as it is whole.
        The log can be appended to safely exactly when nothing is left of it behind that. */
    constructor (cd: Coding, memtableLimitBytes: int, compactionThreshold: int, files: Files, log: seq<Byte>,
                 ghost shelves: seq<Shelf>)
      requires OnDisk(cd, files, shelves) && ReplayOf(cd, log).clean && Readable(cd, ReplayOf(cd, log).ops)
      requires |Over(Layered(TablesOf(shelves)), Applied(ReplayOf(cd, log).ops))| <= MAX_ENTRIES
      ensures Valid() && fresh(memtable) && fresh(wal) && this.cd == cd && this.files == files && wal.file == log
      ensures ShelvesOf(sstables) == shelves
      ensures logged == ReplayOf(cd, log).ops && memtable.table == Applied(logged) && Restores()
      ensures Durable() <==> log == Log(cd, logged)
      ensures View() == Over(Layered(TablesOf(shelves)), Applied(logged))
    {
      hide OnDisk, AllOpen, Log, Applied, ReplayOf, Layered, TablesOf, ShelvesOf, Over, MemTable.Valid;
      var tables, newest := OpenTables(cd, files, shelves);
      var buffer := Recover(cd, log);
      AppliedCodes(cd, ReplayOf(cd, log).ops);
      this.cd, this.memtableLimitBytes, this.compactionThreshold := cd, memtableLimitBytes, compactionThreshold;
      sstables, maxGen, this.files, memtable := tables, newest, files, buffer;
      wal := new WriteAheadLog(cd, log);
      logged := ReplayOf(cd, log).ops;
    }

    /** `openExistingSSTables`: oldest first, each put before the ones read so far. */
    static method OpenTables(cd: Coding, files: Files, ghost shelves: seq<Shelf>)
        returns (tables: seq<SSTable>, newest: nat)
      requires OnDisk(cd, files, shelves)
      ensures AllOpen(cd, tables) && ShelvesOf(tables) == shelves
      ensures forall i :: 0 <= i < |tables| ==> tables[i].gen <= newest
    {
      hide OnDisk, Writable, TableFile, AllOpen, ShelvesOf, HasGen, SSTable.Valid;
      NoTables(cd);
      tables, newest := [], 0;
      var rest := files;
      ghost var n: nat := |shelves|;
      AllLeft(cd, files, shelves);
      while |rest| > 0
        invariant n <= |shelves| && AllOpen(cd, tables) && ShelvesOf(tables) == shelves[n..]
        invariant forall h :: h in rest <==> h in files && HasGen(shelves[..n], h)
        invariant forall h :: h in rest ==> rest[h] == files[h]
        invariant forall i :: 0 <= i < |tables| ==> tables[i].gen <= newest
        decreases |rest|
      {
        var _ := LeastOf(rest.Keys);
        var g :| g in rest && forall h :: h in rest ==> g <= h;
        OldestIsLast(cd, files, shelves, rest, n, g);
        n := n - 1;
        FileOf(cd, files, shelves[n]);
        var table := new SSTable(cd, g, rest[g], shelves[n].entries, shelves[n].filter);
        ShelvesCons(cd, table, tables);
        assert shelves[n..] == [shelves[n]] + shelves[n + 1..];
        tables := [table] + tables;
        newest := if g > newest then g else newest;
        rest := rest - {g};
      }
      NoneLeft(cd, files, shelves, rest, n);
    }

    /** `recoverFromLog`. */
    static method Recover(cd: Coding, log: seq<Byte>) returns (buffer: MemTable)
      ensures fresh(buffer) && buffer.Valid() && buffer.cd == cd
      ensures buffer.table == Applied(ReplayOf(cd, log).ops)
    {
      hide TotalWeight, ReplayOf, Applied, CellOf;
      NothingLogged(cd);
      buffer := new MemTable(cd);
      var replayed, _ := WriteAheadLog.Replay(cd, log);
      var i := 0;
      while i < |replayed|
        invariant 0 <= i <= |replayed| && fresh(buffer) && buffer.Valid() && buffer.cd == cd
        invariant buffer.table == Applied(replayed[..i])
      {
        AppliedSnoc(replayed[..i], replayed[i]);
        assert replayed[..i + 1] == replayed[..i] + [replayed[i]];
        buffer.Update(replayed[i].key, CellOf(replayed[i]));
        i := i + 1;
      }
      assert replayed[..i] == replayed;
    }

    /** `close`: what is left in the directory needs no log. */
    method Close()
      requires Valid()
      modifies this, memtable, wal
      ensures Valid() && Now() == old(Now()) && Contents(Stacked(sstables)) == old(Now())
    {
      hide TablesOk, Stacked, Contents, Over, TotalWeight, Log, Applied;
      Flush();
      OverNothing(Stacked(sstables));
    }
  }

  // ---------------------------------------------------------------- crash and recovery

  /** A crash leaves the directory and the log, the log cut anywhere; a new store is opened on them.
      All of the tables and every operation recorded wholly before the cut are there, and nothing else.
      The new store can go on relying on the log exactly when the cut fell between two records; with
      the log uncut, every acknowledged write is back. */
  method CrashAndReopen(t: LsmTree, cut: nat) returns (u: LsmTree)
    requires t.Valid() && t.Durable() && cut <= |t.wal.file|
    ensures fresh(u) && fresh(u.memtable) && fresh(u.wal) && u.cd == t.cd
    ensures u.Valid() && u.files == t.files && u.wal.file == t.wal.file[..cut]
    ensures u.logged == t.logged[..WholeBefore(t.cd, t.logged, cut)]
    ensures u.Now() == Contents(Over(Stacked(t.sstables), Applied(t.logged[..WholeBefore(t.cd, t.logged, cut)])))
    ensures u.Durable() <==> cut == |Log(t.cd, u.logged)|
    ensures cut == |t.wal.file| ==> u.Durable() && u.Now() == t.Now()
  {
    hide OnDisk, AllOpen, Log, Applied, WholeBefore, Layered, TablesOf, Contents, ReplayOf;
    ghost var n := WholeBefore(t.cd, t.logged, cut);
    AppliedKeys(t.logged, n);
    LayerKeys(Stacked(t.sstables), Applied(t.logged[..n]), Applied(t.logged));
    AppliedCodes(t.cd, t.logged);
    CutReplays(t.cd, t.logged, cut);
    CutIsWhole(t.cd, t.logged, cut);
    u := new LsmTree(t.cd, t.memtableLimitBytes, t.compactionThreshold, t.files, t.wal.file[..cut],
                     ShelvesOf(t.sstables));
  }

  /** After a clean close the log is not needed at all. */
  method CloseAndReopen(t: LsmTree) returns (u: LsmTree)
    requires t.Valid()
    modifies t, t.memtable, t.wal
    ensures fresh(u) && fresh(u.memtable) && fresh(u.wal) && u.cd == t.cd
    ensures u.Valid() && u.Now() == old(t.Now()) && u.memtable.table == map[]
    ensures old(t.Durable()) || |old(t.memtable.table)| > 0 ==> u.Durable() && u.wal.file == []
  {
    hide LsmTree.TablesOk, Log, Applied, WholeBefore, Stacked, Contents, Over, TotalWeight, ReplayOf;
    t.Flush();
    u := Reopen(t);
  }

  /** Opening on what an untouched store leaves behind. */
  method Reopen(t: LsmTree) returns (u: LsmTree)
    requires t.Valid() && t.Restores()
    ensures fresh(u) && fresh(u.memtable) && fresh(u.wal) && u.cd == t.cd
    ensures u.Valid() && u.Now() == t.Now() && u.memtable.table == t.memtable.table
    ensures u.wal.file == t.wal.file && (t.Durable() ==> u.Durable())
  {
    hide OnDisk, AllOpen, Log, Applied, Layered, TablesOf, Contents, ReplayOf;
    AppliedCodes(t.cd, t.logged);
    u := new LsmTree(t.cd, t.memtableLimitBytes, t.compactionThreshold, t.files, t.wal.file, ShelvesOf(t.sstables));
  }

  /** The part of the log before the cut is whole records exactly when it has their length. */
  lemma CutIsWhole(cd: Coding, ops: seq<Op>, cut: nat)
    requires cut <= |Log(cd, ops)|
    ensures var whole := ops[..WholeBefore(cd, ops, cut)];
      Log(cd, ops)[..cut] == Log(cd, whole) <==> cut == |Log(cd, whole)|
    ensures cut == |Log(cd, ops)| ==> ops[..WholeBefore(cd, ops, cut)] == ops
  {
    hide Log, WholeBefore;
    var _ := CutSplits(cd, ops, cut);
    WholeBeforeAll(cd, ops);
  }

  // ---------------------------------------------------------------- why reads are right

  lemma ContentsAt(t: Table, k: int)
    ensures k in Contents(t) <==> k in t && t[k].Value?
    ensures k in Contents(t) ==> Contents(t)[k] == t[k].value
  {}

  lemma TableHere(ss: seq<SSTable>, i: nat)
    requires i < |ss|
    ensures TablesOf(ShelvesOf(ss))[i] == ss[i].Table() == TableOf(ss[i].entries)
  {}

  lemma OpenHere(cd: Coding, ss: seq<SSTable>, i: nat)
    requires AllOpen(cd, ss) && i < |ss|
    ensures ss[i].Valid() && ss[i].cd == cd && Ascending(ss[i].entries) && Keyed(cd, ss[i].entries)
  {}

  lemma StackedCodes(cd: Coding, ss: seq<SSTable>)
    requires AllOpen(cd, ss)
    ensures CodesAll(cd, Stacked(ss))
  {
    hide SSTable.Valid, TableOf, CodesAll;
    var ts := TablesOf(ShelvesOf(ss));
    forall i | 0 <= i < |ts| ensures CodesAll(cd, ts[i]) {
      TableHere(ss, i);
      OpenHere(cd, ss, i);
      EntriesCode(cd, ss[i].entries);
    }
    LayersCode(cd, ts);
  }

  lemma AliveCodes(cd: Coding, t: Table)
    requires CodesAll(cd, t)
    ensures CodesAll(cd, Alive(t))
  {}

  lemma EmptyWithin(ts: seq<Table>, from: Option<int>, to: Option<int>)
    ensures Within(Layered(ts[|ts|..]), from, to) == map[]
  {}

  lemma NonePickedYet(before: Table, es: seq<Entry>, from: Option<int>, to: Option<int>)
    ensures before == before + TableOf(Picked(es[..0], from, to))
  {
    NoEntries();
  }

  lemma OneMorePicked(before: Table, es: seq<Entry>, from: Option<int>, to: Option<int>, i: nat)
    requires i < |es|
    ensures var t := before + TableOf(Picked(es[..i], from, to));
      before + TableOf(Picked(es[..i + 1], from, to)) == if InRange(es[i].key, from, to)
          then t[es[i].key := es[i].cell] else t
  {
    hide TableOf, Picked, InRange;
    PickedSnoc(es, from, to, i);
    var p := Picked(es[..i], from, to);
    TableSnoc(p, es[i]);
    assert p + [] == p;
  }

  lemma OverWithin(lower: Table, t: Table, from: Option<int>, to: Option<int>)
    ensures Within(lower, from, to) + Within(t, from, to) == Within(Over(lower, t), from, to)
  {
    hide InRange;
  }

  lemma ScanContents(view: Table, from: Option<int>, to: Option<int>)
    ensures Contents(Alive(Within(view, from, to))) == map k | k in Contents(view) && InRange(k, from, to) ::
      Contents(view)[k]
  {
    hide InRange;
  }

  method PutAll(t: Table, es: seq<Entry>) returns (r: Table)
    ensures r == t + TableOf(es)
  {
    hide TableOf;
    r := t;
    var i := 0;
    NoEntries();
    assert t + map[] == t;
    while i < |es|
      invariant 0 <= i <= |es| && r == t + TableOf(es[..i])
    {
      TableSnoc(es[..i], es[i]);
      assert es[..i + 1] == es[..i] + [es[i]];
      r := r[es[i].key := es[i].cell];
      i := i + 1;
    }
    assert es[..i] == es;
  }

  // ---------------------------------------------------------------- dropping tombstones

  function LiveEntries(es: seq<Entry>): seq<Entry> {
    if es == [] then []
    else
      var last := es[|es| - 1];
      LiveEntries(es[..|es| - 1]) + if last.cell.Value? then [last] else []
  }

  lemma {:induction false} LiveAscending(es: seq<Entry>)
    requires Ascending(es)
    ensures Ascending(LiveEntries(es)) && |LiveEntries(es)| <= |es| && forall e :: e in LiveEntries(es) ==> e in es
  {
    if es != [] {
      var front, last := es[..|es| - 1], es[|es| - 1];
      LiveAscending(front);
      assert forall e :: e in front ==> e in es && e.key < last.key;
      hide Ascending;
      AscendingSnoc(LiveEntries(front), last);
    }
  }

  lemma {:induction false} LiveTable(es: seq<Entry>)
    requires Ascending(es)
    ensures TableOf(LiveEntries(es)) == Alive(TableOf(es))
  {
    if es == [] {
      assert Alive(TableOf(es)) == map[];
    } else {
      var front, last := es[..|es| - 1], es[|es| - 1];
      LiveTable(front);
      NotBefore(es);
      hide TableOf, Ascending, Alive;
      TableSnoc(front, last);
      assert front + [last] == es;
      AlivePut(TableOf(front), last.key, last.cell);
      var p := LiveEntries(front);
      TableSnoc(p, last);
      assert p + [] == p;
    }
  }

  lemma AlivePut(t: Table, k: int, c: Cell)
    ensures k !in t ==> Alive(t[k := c]) == if c.Value? then Alive(t)[k := c] else Alive(t)
  {}

  /** The live entries of a sorted map, in order. */
  method LiveOf(t: Table) returns (out: seq<Entry>)
    ensures Ascending(out) && TableOf(out) == Alive(t) && |out| <= |t|
  {
    hide Ascending, TableOf, Alive;
    var es := InOrder(t);
    out := [];
    var i := 0;
    while i < |es|
      invariant 0 <= i <= |es| && out == LiveEntries(es[..i])
    {
      assert es[..i + 1][..i] == es[..i];
      if es[i].cell.Value? { out := out + [es[i]]; }
      i := i + 1;
    }
    assert es[..i] == es;
    LiveAscending(es);
    LiveTable(es);
  }

  lemma AliveUnder(lower: Table, t: Table)
    ensures Contents(Over(Alive(lower), t)) == Contents(Over(lower, t))
  {
    hide Contents, Alive;
    AliveSame(lower, t);
  }

  lemma AliveFewer(lower: Table, t: Table)
    ensures |Over(Alive(lower), t)| <= |Over(lower, t)| && |Alive(lower)| <= |lower|
  {
    FewerKeys(Alive(lower) + t, lower + t);
    FewerKeys(Alive(lower), lower);
  }

  // ---------------------------------------------------------------- the log and the buffer

  function OpOf(key: int, c: Cell): Op {
    match c
    case Tombstone => WriteAheadLogs.Op.Delete(key)
    case Value(v) => WriteAheadLogs.Op.Put(key, v)
  }

  lemma Recorded(ops: seq<Op>, key: int, c: Cell, cd: Coding)
    ensures var op := OpOf(key, c);
      && Log(cd, ops + [op]) == Log(cd, ops) + Record(cd, op)
      && Applied(ops + [op]) == Applied(ops)[key := c]
  {
    hide Log, Record, Applied;
    LogAppends(cd, ops, OpOf(key, c));
    AppliedSnoc(ops, OpOf(key, c));
  }

  lemma OneMore(lower: Table, t: Table, k: int, c: Cell)
    ensures Over(lower, t[k := c]) == Over(lower, t)[k := c] && |Over(lower, t)[k := c]| <= |Over(lower, t)| + 1
  {
    OverPut(lower, t, k, c);
    hide Over;
  }

  lemma OverPut(lower: Table, t: Table, k: int, c: Cell)
    ensures Over(lower, t[k := c]) == Over(lower, t)[k := c]
  {}

  lemma OverAt(lower: Table, t: Table, k: int)
    ensures k in Over(lower, t) <==> k in lower || k in t
    ensures k in Over(lower, t) ==> Over(lower, t)[k] == if k in t then t[k] else lower[k]
  {}

  lemma OverSizes(lower: Table, t: Table)
    ensures |t| <= |Over(lower, t)| && |lower| <= |Over(lower, t)|
  {
    LayerKeys(lower, t, t);
  }

  lemma OverNothing(t: Table)
    ensures Over(t, map[]) == t
  {}

  lemma NothingLogged(cd: Coding)
    ensures Log(cd, []) == [] && Applied([]) == map[]
  {}

  lemma NoOperations(cd: Coding, ops: seq<Op>)
    requires Applied(ops) == map[]
    ensures ops == []
  {
    if ops != [] { SomethingApplied(ops); }
  }

  lemma SomethingApplied(ops: seq<Op>)
    requires ops != []
    ensures Applied(ops) != map[]
  {
    assert ops[|ops| - 1].key in Applied(ops);
  }

  // ---------------------------------------------------------------- the directory

  lemma ShelvesCons(cd: Coding, s: SSTable, ss: seq<SSTable>)
    ensures ShelvesOf([s] + ss) == [ShelfOf(s)] + ShelvesOf(ss)
    ensures s.Valid() && s.cd == cd && AllOpen(cd, ss) ==> AllOpen(cd, [s] + ss)
  {}

  lemma GensBelow(ss: seq<SSTable>, gen: int)
    requires forall i :: 0 <= i < |ss| ==> ss[i].gen < gen
    ensures forall i :: 0 <= i < |ShelvesOf(ss)| ==> ShelvesOf(ss)[i].gen < gen
  {}

  lemma OldFiles(cd: Coding, files: Files, ss: seq<SSTable>, gen: int)
    requires OnDisk(cd, files, ShelvesOf(ss))
    ensures forall g :: g in files ==> HasGen(ShelvesOf(ss), g)
  {}

  lemma OldGen(ss: seq<SSTable>, g: int) returns (i: nat)
    requires HasGen(ShelvesOf(ss), g)
    ensures i < |ss| && ss[i].gen == g
  {
    i :| 0 <= i < |ShelvesOf(ss)| && ShelvesOf(ss)[i].gen == g;
  }

  lemma NoneOfOld(files: Files, old': seq<SSTable>, gen: int)
    requires forall g :: g in files ==> g == gen || HasGen(ShelvesOf(old'), g)
    requires forall j :: 0 <= j < |old'| ==> old'[j].gen !in files
    ensures forall g :: g in files ==> g == gen
  {
    forall g | g in files ensures g == gen {
      if HasGen(ShelvesOf(old'), g) {
        var _ := OldGen(old', g);
      }
    }
  }

  lemma AllLeft(cd: Coding, files: Files, shelves: seq<Shelf>)
    requires OnDisk(cd, files, shelves)
    ensures forall h :: h in files <==> h in files && HasGen(shelves[..|shelves|], h)
    ensures shelves[|shelves|..] == []
  {
    assert shelves[..|shelves|] == shelves;
  }

  lemma NoneLeft(cd: Coding, files: Files, shelves: seq<Shelf>, rest: Files, n: nat)
    requires OnDisk(cd, files, shelves) && n <= |shelves| && |rest| == 0
    requires forall h :: h in rest <==> h in files && HasGen(shelves[..n], h)
    ensures n == 0
  {
    hide OnFile;
    assert rest == map[];
    if n > 0 {
      NewestIn(cd, files, shelves, n);
    }
  }

  lemma NewestIn(cd: Coding, files: Files, shelves: seq<Shelf>, n: nat)
    requires OnDisk(cd, files, shelves) && 0 < n <= |shelves|
    ensures exists h :: h in files && HasGen(shelves[..n], h)
  {
    hide OnFile;
    assert OnFile(cd, files, shelves[0]);
    FileOf(cd, files, shelves[0]);
    assert shelves[..n][0].gen == shelves[0].gen;
  }

  lemma NoTables(cd: Coding)
    ensures AllOpen(cd, []) && ShelvesOf([]) == []
  {}
}
