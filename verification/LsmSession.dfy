/** A store of `Java-LSM` whose keys are 64-bit numbers, from its first opening on an empty directory
    through a crash and a clean close. */
module LsmSession {
  import opened LsmBytes
  import opened LsmTables
  import opened WriteAheadLogs
  import opened LsmRecovery
  import opened LsmTrees
  import opened Options

  const KEYS := 0x1_0000_0000_0000_0000

  /** Eight bytes a key. */
  function Longs(): Coding {
    Coding(k => if 0 <= k < KEYS then Num(k, 8) else [], s => if |s| == 8 then NumberIn(s) else 0)
  }

  lemma LongsCode(k: int)
    ensures Codable(Longs(), k) <==> 0 <= k < KEYS
  {
    if 0 <= k < KEYS { LongRoundTrip(k); }
  }

  /** A new store on an empty directory. */
  method OpenNew(memtableLimitBytes: int, compactionThreshold: int) returns (t: LsmTree)
    ensures fresh(t) && fresh(t.memtable) && fresh(t.wal) && t.Valid() && t.Durable() && t.cd == Longs()
    ensures t.Now() == map[] && |t.View()| == 0
  {
    hide LsmTree.Valid, Log, Applied, Contents, Longs, OnDisk;
    NothingLogged(Longs());
    NothingReplays(Longs());
    EmptyDirectory(Longs());
    t := new LsmTree(Longs(), memtableLimitBytes, compactionThreshold, map[], [], []);
    NothingThere(t);
  }

  /** Two writes, the first flushed to a table, and the first key deleted. */
  method Work(t: LsmTree, a: int, v: Bytes, b: int, w: Bytes)
    requires t.Valid() && t.Durable() && t.cd == Longs() && t.Now() == map[] && |t.View()| == 0
    requires 0 <= a < KEYS && 0 <= b < KEYS
    modifies t, t.memtable, t.wal
    ensures t.Valid() && t.Durable() && t.memtable == old(t.memtable)
    ensures t.Now() == if a == b then map[] else map[b := w]
  {
    hide LsmTree.Valid, LsmTree.Durable, LsmTree.Restores, LsmTree.View, LsmTree.Now, Codable, Longs;
    LongsCode(a);
    LongsCode(b);
    t.Put(a, v);
    t.Flush();
    t.Put(b, w);
    t.Delete(a);
    OnlyWrite(t.Now(), a, v, b, w);
  }

  /** A crash, and a clean close. */
  method Restart(t: LsmTree) returns (u: LsmTree)
    requires t.Valid() && t.Durable()
    ensures fresh(u) && u.Valid() && u.Now() == t.Now()
  {
    hide LsmTree.Valid, LsmTree.Durable, LsmTree.Restores, LsmTree.View, LsmTree.Now;
    var crashed := CrashAndReopen(t, |t.wal.file|);
    u := CloseAndReopen(crashed);
  }

  /** All of it, from an empty directory on: what is read in the end. */
  method Session(memtableLimitBytes: int, compactionThreshold: int, a: int, v: Bytes, b: int, w: Bytes)
    returns (atA: Option<Bytes>, atB: Option<Bytes>, all: seq<Entry>)
    requires 0 <= a < KEYS && 0 <= b < KEYS
    ensures atA == None && atB == if a == b then None else Some(w)
    ensures Ascending(all) && Contents(TableOf(all)) == if a == b then map[] else map[b := w]
  {
    hide LsmTree.Valid, LsmTree.Durable, LsmTree.View, LsmTree.Now, Longs, Contents, TableOf, Ascending;
    var t := OpenNew(memtableLimitBytes, compactionThreshold);
    Work(t, a, v, b, w);
    var u := Restart(t);
    atA := u.Get(a);
    atB := u.Get(b);
    all := u.Scan(None, None);
    Everything(u.Now());
  }

  lemma OnlyWrite(m: map<int, Bytes>, a: int, v: Bytes, b: int, w: Bytes)
    requires m == map[][a := v][b := w] - {a}
    ensures m == if a == b then map[] else map[b := w]
  {}

  lemma Everything(m: map<int, Bytes>)
    ensures (map k | k in m && InRange(k, None, None) :: m[k]) == m
  {}

  lemma EmptyDirectory(cd: Coding)
    ensures OnDisk(cd, map[], []) && Layered(TablesOf([])) == map[]
  {}

  lemma NothingThere(t: LsmTree)
    requires t.View() == Over(map[], map[])
    ensures t.Now() == map[] && |t.View()| == 0
  {}
}
