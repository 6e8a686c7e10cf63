/** `Java-LSM/src/lsm/SSTable.java`: writing a table, opening it, point lookups and range reads.
    Positions are not truncated to an int: the source refuses tables of two gigabytes or more. */
module SSTables {
  import opened LsmBytes
  import opened LsmTables
  import opened BloomFilters
  import opened SSTableFormat
  import opened Options

  // ---------------------------------------------------------------- writing

  /** `write`: the bytes of a table, and the filter in it. */
  method Write(cd: Coding, sorted: seq<Entry>, numBits: nat, numHashes: nat)
    returns (file: seq<Byte>, ghost f: Filter)
    requires Keyed(cd, sorted) && Ascending(sorted) && |sorted| <= MAX_ENTRIES
    requires 64 <= numBits < 64 * MAX_INT && 1 <= numHashes <= MAX_INT
    ensures file == TableFile(cd, sorted, f) && Writable(cd, sorted, f)
    ensures f == FilterOf(numBits, numHashes, KeysOf(cd, sorted))
  {
    hide Sound, Claims, Concat, Added, EntryBytes, FilterBytes, Footer, MarkBytes, Num, KnowsUpTo, IndexBytes,
         TableFile, Writable, KeysOf;
    var bloom := new BloomFilter(numBits, numHashes);
    var sparse: seq<Mark> := [];
    file := [];
    var count: nat := 0;
    ConcatNone(EntryCoder(cd), sorted);
    KnowsNone(cd, bloom.Now(), sorted);
    NoKeys(cd, sorted, numBits, numHashes);
    while count < |sorted|
      invariant count <= |sorted| && fresh(bloom) && fresh(bloom.bits)
      invariant file == Data(cd, sorted[..count]) && sparse == Marks(cd, sorted, count)
      invariant KnowsUpTo(cd, bloom.Now(), sorted, count)
      invariant bloom.numBits == numBits && bloom.numHashes == numHashes
      invariant bloom.Now() == FilterOf(numBits, numHashes, KeysOf(cd, sorted[..count]))
    {
      var e := sorted[count];
      var off := |file|;
      MarksGrow(cd, sorted, count);
      if count % SPARSE == 0 { sparse := sparse + [Mark(e.key, off)]; }
      var k := cd.enc(e.key);
      var record := WriteEntry(e, k);
      RecordIs(cd, e, record);
      ConcatSnoc(EntryCoder(cd), sorted, count);
      file := file + record;
      ghost var before := bloom.Now();
      KnowsSound(cd, before, sorted, count);
      bloom.Add(k);
      KnowsMore(cd, before, sorted, count);
      OneKeyMore(cd, sorted, count, numBits, numHashes);
      count := count + 1;
    }
    assert sorted[..count] == sorted;
    KnowsSound(cd, bloom.Now(), sorted, count);
    f := bloom.Now();
    KnowsAll(cd, f, sorted);
    var indexOffset := |file|;
    var index := WriteIndex(cd, sparse);
    file := file + index;
    var bloomOffset := |file|;
    var filter := WriteFilter(bloom);
    file := file + filter;
    var footer := Num(indexOffset, 8);
    footer := footer + Num(bloomOffset, 8);
    footer := footer + Num(count, 4);
    footer := footer + Num(MAGIC, 8);
    FooterIs(indexOffset, |index|, count, footer);
    file := file + footer;
    FileIs(cd, sorted, f, file, index, filter, footer);
  }

  /** The encoded keys, in order. */
  function KeysOf(cd: Coding, es: seq<Entry>): (ks: seq<seq<Byte>>)
    ensures |ks| == |es|
  {
    seq(|es|, i requires 0 <= i < |es| => cd.enc(es[i].key))
  }

  lemma NoKeys(cd: Coding, es: seq<Entry>, numBits: nat, numHashes: nat)
    requires numBits > 0
    ensures FilterOf(numBits, numHashes, KeysOf(cd, es[..0])) == Empty(numBits, numHashes)
  {}

  lemma OneKeyMore(cd: Coding, es: seq<Entry>, n: nat, numBits: nat, numHashes: nat)
    requires n < |es| && numBits > 0
    ensures FilterOf(numBits, numHashes, KeysOf(cd, es[..n + 1])) ==
            Added(FilterOf(numBits, numHashes, KeysOf(cd, es[..n])), cd.enc(es[n].key))
  {
    hide Added;
    assert KeysOf(cd, es[..n + 1])[..n] == KeysOf(cd, es[..n]);
  }

  method WriteEntry(e: Entry, k: Bytes) returns (record: seq<Byte>)
    ensures record == if e.cell.Value? then Num(|k|, 4) + k + [1] + Num(|e.cell.value|, 4) + e.cell.value
        else Num(|k|, 4) + k + [0]
  {
    record := Num(|k|, 4);
    record := record + k;
    match e.cell {
      case Tombstone => record := record + [0];
      case Value(v) =>
        record := record + [1];
        record := record + Num(|v|, 4);
        record := record + v;
    }
  }

  method WriteIndex(cd: Coding, sparse: seq<Mark>) returns (out: seq<Byte>)
    ensures out == IndexBytes(cd, sparse)
  {
    hide Concat;
    out := Num(|sparse|, 4);
    var i: nat := 0;
    ConcatNone(MarkCoder(cd), sparse);
    while i < |sparse|
      invariant i <= |sparse| && out == Num(|sparse|, 4) + Concat(MarkCoder(cd), sparse[..i])
    {
      ConcatSnoc(MarkCoder(cd), sparse, i);
      var k := cd.enc(sparse[i].key);
      ghost var before := out;
      out := out + Num(|k|, 4);
      out := out + k;
      out := out + Num(sparse[i].offset, 8);
      assert out == before + MarkBytes(cd, sparse[i]);
      i := i + 1;
    }
    assert sparse[..i] == sparse;
  }

  /** `writeTo` of the filter. */
  method WriteFilter(bloom: BloomFilter) returns (out: seq<Byte>)
    ensures out == FilterBytes(bloom.Now())
  {
    hide Concat;
    ghost var words := bloom.bits[..];
    out := Num(bloom.numBits, 8);
    out := out + Num(bloom.numHashes, 4);
    out := out + Num(bloom.bits.Length, 4);
    ghost var head := out;
    var i: nat := 0;
    ConcatNone(WordCoder(), words);
    while i < bloom.bits.Length
      invariant i <= bloom.bits.Length && out == head + Concat(WordCoder(), words[..i])
    {
      ConcatSnoc(WordCoder(), words, i);
      out := out + Num(bloom.bits[i], 8);
      i := i + 1;
    }
    assert words[..i] == words;
  }

  lemma ConcatNone<T>(code: T -> seq<Byte>, xs: seq<T>)
    ensures Concat(code, xs[..0]) == []
  {}

  lemma RecordIs(cd: Coding, e: Entry, record: seq<Byte>)
    requires var k := cd.enc(e.key);
      record == if e.cell.Value? then Num(|k|, 4) + k + [1] + Num(|e.cell.value|, 4) + e.cell.value
          else Num(|k|, 4) + k + [0]
    ensures record == EntryCoder(cd)(e)
  {}

  lemma FooterIs(dataSize: nat, indexSize: nat, count: nat, footer: seq<Byte>)
    requires footer == Num(dataSize, 8) + Num(dataSize + indexSize, 8) + Num(count, 4) + Num(MAGIC, 8)
    ensures footer == Footer(dataSize, indexSize, count)
  {
    hide Num;
  }

  lemma FileIs(cd: Coding, es: seq<Entry>, f: Filter, file: seq<Byte>, index: seq<Byte>, filter: seq<Byte>,
      footer: seq<Byte>)
    requires index == IndexBytes(cd, Marks(cd, es, |es|)) && filter == FilterBytes(f)
    requires footer == Footer(|Data(cd, es)|, |index|, |es|)
    requires file == Data(cd, es) + index + filter + footer
    ensures file == TableFile(cd, es, f)
  {
    hide Data, IndexBytes, FilterBytes, Footer, Marks;
  }

  lemma MarksGrow(cd: Coding, es: seq<Entry>, n: nat)
    requires n < |es|
    ensures Marks(cd, es, n + 1) == if n % SPARSE == 0 then Marks(cd, es, n) + [Mark(es[n].key, Offset(cd, es, n))]
      else Marks(cd, es, n)
  {
    hide Data;
    var a, b := (n + 63) / 64, (n + 64) / 64;
    if n % 64 == 0 {
      assert b == a + 1 && 64 * a == n;
    } else {
      assert a == b;
    }
  }

  /** The filter knows the keys of the first `n` entries. */
  ghost predicate KnowsUpTo(cd: Coding, f: Filter, es: seq<Entry>, n: nat) {
    n <= |es| && Sound(f) && forall i :: 0 <= i < n ==> Claims(f, cd.enc(es[i].key))
  }

  lemma KnowsNone(cd: Coding, f: Filter, es: seq<Entry>)
    requires Sound(f)
    ensures KnowsUpTo(cd, f, es, 0)
  {}

  lemma KnowsSound(cd: Coding, f: Filter, es: seq<Entry>, n: nat)
    requires n <= |es| && KnowsUpTo(cd, f, es, n)
    ensures Sound(f)
  {}

  lemma KnowsMore(cd: Coding, f: Filter, es: seq<Entry>, n: nat)
    requires n < |es| && KnowsUpTo(cd, f, es, n)
    ensures f.numBits > 0 && |f.bits| == (f.numBits + 63) / 64
    ensures KnowsUpTo(cd, Added(f, cd.enc(es[n].key)), es, n + 1)
  {
    hide Claims, Added;
    AddKeepsClaims(f, cd.enc(es[n].key), []);
    forall i | 0 <= i < n ensures Claims(Added(f, cd.enc(es[n].key)), cd.enc(es[i].key)) {
      AddKeepsClaims(f, cd.enc(es[n].key), cd.enc(es[i].key));
    }
  }

  lemma KnowsAll(cd: Coding, f: Filter, es: seq<Entry>)
    requires Keyed(cd, es) && Ascending(es) && |es| <= MAX_ENTRIES && KnowsUpTo(cd, f, es, |es|)
    ensures Writable(cd, es, f)
  {
    hide Claims, Sound;
  }

  // ---------------------------------------------------------------- reading

  lemma ReadNum(file: seq<Byte>, pos: int, n: nat, k: nat)
    requires StandsAt(file, pos, Num(n, k)) && (k == 4 || k == 8)
    ensures 0 <= pos && pos + k <= |file|
    ensures k == 4 && n <= MAX_INT ==> Int(file[pos..pos + 4]) == n
    ensures k == 8 && n < 0x1_0000_0000_0000_0000 ==> NumberIn(file[pos..pos + 8]) == n
  {
    if k == 4 && n <= MAX_INT { IntRoundTrip(n); }
    if k == 8 && n < 0x1_0000_0000_0000_0000 { LongRoundTrip(n); }
  }

  /** Where the reader stands: at entry `i`, or behind the last. */
  ghost predicate AtEntry(cd: Coding, file: seq<Byte>, es: seq<Entry>, pos: int, i: nat) {
    StandsAt(file, 0, Data(cd, es)) && i <= |es| && pos == Offset(cd, es, i)
  }

  lemma EntryHere(cd: Coding, file: seq<Byte>, es: seq<Entry>, pos: int, i: nat)
    requires AtEntry(cd, file, es, pos, i) && i < |es|
    ensures StandsAt(file, pos, EntryBytes(cd, es[i])) && AtEntry(cd, file, es, pos + |EntryBytes(cd, es[i])|, i + 1)
    ensures pos < Offset(cd, es, |es|)
  {
    hide Concat, EntryBytes;
    PieceAt(EntryCoder(cd), es, i);
    StandsInside(file, 0, Data(cd, es), pos, EntryBytes(cd, es[i]));
    OffsetsGrow(cd, es, i + 1, |es|);
    EntrySmall(cd, es[i]);
  }

  lemma {:induction false} OffsetsGrow(cd: Coding, es: seq<Entry>, i: nat, j: nat)
    requires i <= j <= |es|
    ensures Offset(cd, es, i) <= Offset(cd, es, j)
    decreases j - i
  {
    hide Concat;
    if i < j {
      PieceAt(EntryCoder(cd), es, i);
      OffsetsGrow(cd, es, i + 1, j);
    }
  }

  /** One entry, field by field. */
  method ReadEntry(cd: Coding, data: seq<Byte>, start: int, ghost es: seq<Entry>, ghost i: nat)
    returns (key: int, cell: Cell, pos: int)
    requires AtEntry(cd, data, es, start, i) && i < |es| && Codable(cd, es[i].key)
    ensures key == es[i].key && cell == es[i].cell && AtEntry(cd, data, es, pos, i + 1)
    ensures start < pos && start < Offset(cd, es, |es|)
  {
    hide Concat, StandsAt, EntryBytes, CellBytes, Num, Int, NumberIn, AtEntry;
    pos := start;
    EntryHere(cd, data, es, pos, i);
    EntryFields(cd, data, pos, es[i]);
    CellFields(data, pos + 4 + |cd.enc(es[i].key)|, es[i].cell);
    ReadNum(data, pos, |cd.enc(es[i].key)|, 4);
    var kl := Int(data[pos..pos + 4]);
    pos := pos + 4;
    PartIs(data, pos, cd.enc(es[i].key));
    var kk := data[pos..pos + kl];
    pos := pos + kl;
    key := cd.dec(kk);
    var flag := data[pos];
    pos := pos + 1;
    cell := Tombstone;
    if flag == 1 {
      ReadNum(data, pos, |es[i].cell.value|, 4);
      var vl := Int(data[pos..pos + 4]);
      pos := pos + 4;
      PartIs(data, pos, es[i].cell.value);
      cell := Cell.Value(data[pos..pos + vl]);
      pos := pos + vl;
    }
  }

  lemma PartIs(file: seq<Byte>, pos: int, part: seq<Byte>)
    requires StandsAt(file, pos, part)
    ensures 0 <= pos && pos + |part| <= |file| && file[pos..pos + |part|] == part
  {}

  // ---------------------------------------------------------------- what lookups mean

  /** The entries in a range, in their order. */
  function Picked(es: seq<Entry>, from: Option<int>, to: Option<int>): seq<Entry> {
    if es == [] then []
    else
      var last := es[|es| - 1];
      Picked(es[..|es| - 1], from, to) + if InRange(last.key, from, to) then [last] else []
  }

  lemma PickedIs(es: seq<Entry>, from: Option<int>, to: Option<int>)
    requires Ascending(es)
    ensures Ascending(Picked(es, from, to)) && TableOf(Picked(es, from, to)) == Within(TableOf(es), from, to)
  {
    PickedAscending(es, from, to);
    PickedTable(es, from, to);
  }

  lemma {:induction false} PickedAscending(es: seq<Entry>, from: Option<int>, to: Option<int>)
    requires Ascending(es)
    ensures Ascending(Picked(es, from, to)) && forall e :: e in Picked(es, from, to) ==> e in es
  {
    if es != [] {
      var front, last := es[..|es| - 1], es[|es| - 1];
      PickedAscending(front, from, to);
      var p := Picked(front, from, to);
      assert forall e :: e in front ==> e in es && e.key < last.key;
      hide Ascending, InRange;
      AscendingSnoc(p, last);
    }
  }

  lemma {:induction false} PickedTable(es: seq<Entry>, from: Option<int>, to: Option<int>)
    requires Ascending(es)
    ensures TableOf(Picked(es, from, to)) == Within(TableOf(es), from, to)
  {
    if es == [] {
      assert Within(TableOf(es), from, to) == map[];
    } else {
      var front, last := es[..|es| - 1], es[|es| - 1];
      PickedTable(front, from, to);
      NotBefore(es);
      hide Within, TableOf, InRange, Ascending;
      TableSnoc(front, last);
      assert front + [last] == es;
      WithinPut(TableOf(front), last.key, last.cell, from, to);
      var p := Picked(front, from, to);
      TableSnoc(p, last);
      assert p + [] == p;
    }
  }

  lemma NotBefore(es: seq<Entry>)
    requires Ascending(es) && es != []
    ensures es[|es| - 1].key !in TableOf(es[..|es| - 1])
  {
    OfTable(es[..|es| - 1], es[|es| - 1].key);
  }

  lemma WithinPut(t: Table, k: int, c: Cell, from: Option<int>, to: Option<int>)
    ensures k !in t ==> Within(t[k := c], from, to) == if InRange(k, from, to) then Within(t, from, to)[k := c]
      else Within(t, from, to)
  {}

  /** Nothing is picked from entries before the range. */
  lemma {:induction false} NonePicked(es: seq<Entry>, from: Option<int>, to: Option<int>)
    requires forall i :: 0 <= i < |es| ==> !InRange(es[i].key, from, to)
    ensures Picked(es, from, to) == []
  {
    if es != [] { NonePicked(es[..|es| - 1], from, to); }
  }

  /** Nor from entries behind it. */
  lemma {:induction false} NoMorePicked(es: seq<Entry>, from: Option<int>, to: Option<int>, n: nat)
    requires n <= |es| && forall i :: n <= i < |es| ==> !InRange(es[i].key, from, to)
    ensures Picked(es, from, to) == Picked(es[..n], from, to)
    decreases |es|
  {
    if n == |es| {
      assert es[..n] == es;
    } else {
      NoMorePicked(es[..|es| - 1], from, to, n);
      assert es[..|es| - 1][..n] == es[..n];
    }
  }

  lemma PickedSnoc(es: seq<Entry>, from: Option<int>, to: Option<int>, n: nat)
    requires n < |es|
    ensures Picked(es[..n + 1], from, to) == Picked(es[..n], from, to) + if InRange(es[n].key, from, to) then [es[n]]
      else []
  {
    assert es[..n + 1][..n] == es[..n];
  }

  // ---------------------------------------------------------------- the table

  class SSTable {
    const cd: Coding
    const gen: nat                    // which file of the directory this is
    const data: seq<Byte>
    const sparseIndex: seq<Mark>
    const bloom: Filter
    const dataEnd: nat
    const count: nat
    ghost const entries: seq<Entry>

    ghost predicate Valid() {
      && Writable(cd, entries, bloom) && data == TableFile(cd, entries, bloom)
      && sparseIndex == Marks(cd, entries, |entries|) && dataEnd == |Data(cd, entries)| && count == |entries|
    }

    ghost function Table(): Table {
      TableOf(entries)
    }

    /** Opening the bytes of a table. */
    constructor (cd: Coding, gen: nat, file: seq<Byte>, ghost es: seq<Entry>, ghost f: Filter)
      requires Writable(cd, es, f) && file == TableFile(cd, es, f)
      ensures Valid() && entries == es && bloom == f && this.cd == cd && this.gen == gen && data == file
    {
      hide TableFile, Writable, Data, IndexBytes, Marks, FilterBytes, Footer, StandsAt, Num, Int, NumberIn;
      SectionsStand(cd, es, f);
      ghost var index := IndexBytes(cd, Marks(cd, es, |es|));
      var foot := |file| - FOOTER_BYTES;
      FooterFields(file, foot, |Data(cd, es)|, |index|, |es|);
      SmallTable(cd, es, f);
      SizesFit(cd, es);
      ReadNum(file, foot, |Data(cd, es)|, 8);
      ReadNum(file, foot + 8, |Data(cd, es)| + |index|, 8);
      ReadNum(file, foot + 16, |es|, 4);
      var indexOffset := NumberIn(file[foot..foot + 8]);
      var bloomOffset := NumberIn(file[foot + 8..foot + 16]);
      count := Int(file[foot + 16..foot + 20]);
      dataEnd := indexOffset;
      var sparse := ReadIndex(cd, file, indexOffset, es);
      var filter := ReadFilter(file, bloomOffset, f);
      sparseIndex, bloom := sparse, filter;
      this.cd, this.gen, data, entries := cd, gen, file, es;
    }

    /** Where to begin for a key: the last marked entry at or before it, else the first. */
    ghost function Begin(key: int): (s: nat)
      requires Valid()
      ensures s <= |entries|
    {
      hide Writable, Data, TableFile;
      var j := Floor(sparseIndex, key);
      if j < 0 then 0 else 64 * j
    }

    /** The filter knows that the key is not there. */
    ghost predicate Rejects(key: int)
      requires Valid()
    {
      !Claims(bloom, cd.enc(key))
    }

    /** `get`: a value, a tombstone, or nothing; at most 65 entries are read, and none when the filter
        rejects the key. */
    method Get(key: int) returns (r: Option<Cell>, ghost probes: nat)
      requires Valid()
      ensures r == if key in Table() then Some(Table()[key]) else None
      ensures probes <= SPARSE + 1 && (Rejects(key) ==> probes == 0)
    {
      hide Writable, TableFile, Data, Claims, AtEntry, TableOf, Sound;
      var k := cd.enc(key);
      probes := 0;
      SoundHere();
      var maybe := MightContain(bloom, k);
      if !maybe {
        UnknownKey(cd, entries, bloom, key);
        return None, 0;
      }
      var j := Floor(sparseIndex, key);
      ghost var i := Begin(key);
      ghost var first := i;
      StartHere(key);
      var pos := if j < 0 then 0 else sparseIndex[j].offset;
      while pos < dataEnd
        invariant first <= i <= |entries| && AtEntry(cd, data, entries, pos, i) && probes == i - first
        invariant forall m :: 0 <= m < i ==> entries[m].key < key
        invariant i <= first + SPARSE
        decreases |entries| - i
      {
        NotAtEnd(cd, data, entries, pos, i);
        var cur, cell, next := ReadEntry(cd, data, pos, entries, i);
        probes := probes + 1;
        if cur == key {
          InTable(entries, i);
          return Some(cell), probes;
        }
        if cur > key {
          Passed(key, i);
          return None, probes;
        }
        WithinBlock(key, i);
        pos, i := next, i + 1;
      }
      AtEnd(cd, data, entries, pos, i);
      Passed(key, i);
      return None, probes;
    }

    /** `range`: the entries with `from <= key < to`, in order. */
    method Range(from: Option<int>, to: Option<int>) returns (out: seq<Entry>)
      requires Valid()
      ensures out == Picked(entries, from, to)
    {
      hide Writable, TableFile, Data, Claims, AtEntry, TableOf, Sound, Picked;
      var j := if from.None? then -1 else Floor(sparseIndex, from.value);
      ghost var i: nat := if from.None? then 0 else Begin(from.value);
      if from.Some? { StartHere(from.value); } else { StartAtZero(cd, entries, bloom); }
      SoundHere();
      NonePicked(entries[..i], from, to);
      var pos := if j < 0 then 0 else sparseIndex[j].offset;
      out := [];
      while pos < dataEnd
        invariant i <= |entries| && AtEntry(cd, data, entries, pos, i)
        invariant out == Picked(entries[..i], from, to)
        decreases |entries| - i
      {
        NotAtEnd(cd, data, entries, pos, i);
        var cur, cell, next := ReadEntry(cd, data, pos, entries, i);
        PickedSnoc(entries, from, to, i);
        ghost var at := i;
        pos, i := next, i + 1;
        if from.Some? && cur < from.value { continue; }
        if to.Some? && cur >= to.value {
          Beyond(from, to, at);
          return;
        }
        out := out + [Entry(cur, cell)];
      }
      AtEnd(cd, data, entries, pos, i);
      assert entries[..i] == entries;
    }

    // -------------------------------------------------------------- why the scans are right

    lemma SoundHere()
      requires Valid()
      ensures Sound(bloom) && Ascending(entries) && Keyed(cd, entries) && bloom.numBits > 0 &&
        |bloom.bits| == (bloom.numBits + 63) / 64
    {}

    /** Entries before the start are all smaller than the key. */
    lemma StartHere(key: int)
      requires Valid()
      ensures var j, i := Floor(sparseIndex, key), Begin(key);
        && AtEntry(cd, data, entries, if j < 0 then 0 else sparseIndex[j].offset, i)
        && forall m :: 0 <= m < i ==> entries[m].key < key
    {
      hide TableFile, Data, Sound, Claims;
      SectionsStand(cd, entries, bloom);
      OffsetZero(cd, entries);
    }

    /** The next mark is beyond the key, so the scan ends with this block. */
    lemma WithinBlock(key: int, i: nat)
      requires Valid() && Begin(key) <= i < |entries| && i <= Begin(key) + SPARSE && entries[i].key < key
      ensures i < Begin(key) + SPARSE
    {
      hide TableFile, Data, Sound, Claims;
      var j := Floor(sparseIndex, key);
      if j + 1 < |sparseIndex| && i == Begin(key) + SPARSE {
        FloorIsLast(sparseIndex, key, j + 1);
      }
      if j < 0 && |entries| > 0 { FloorIsLast(sparseIndex, key, 0); }
    }

    lemma Passed(key: int, i: nat)
      requires Valid() && i <= |entries| && (forall m :: 0 <= m < i ==> entries[m].key < key)
      requires i < |entries| ==> entries[i].key > key
      ensures key !in Table()
    {
      hide TableFile, Data, Sound, Claims;
      OfTable(entries, key);
    }

    lemma Beyond(from: Option<int>, to: Option<int>, i: nat)
      requires Valid() && i < |entries| && to.Some? && entries[i].key >= to.value
      ensures Picked(entries, from, to) == Picked(entries[..i], from, to)
    {
      hide TableFile, Data, Sound, Claims;
      forall m | i <= m < |entries| ensures !InRange(entries[m].key, from, to) {}
      NoMorePicked(entries, from, to, i);
    }
  }

  lemma OffsetZero(cd: Coding, es: seq<Entry>)
    ensures Offset(cd, es, 0) == 0
  {}

  lemma StartAtZero(cd: Coding, es: seq<Entry>, f: Filter)
    ensures AtEntry(cd, TableFile(cd, es, f), es, 0, 0)
  {
    hide TableFile;
    SectionsStand(cd, es, f);
    OffsetZero(cd, es);
  }

  /** The filter rejects only keys that are not there. */
  lemma UnknownKey(cd: Coding, es: seq<Entry>, f: Filter, key: int)
    requires Writable(cd, es, f) && !Claims(f, cd.enc(key))
    ensures key !in TableOf(es)
  {
    hide Sound, Claims;
    OfTable(es, key);
  }

  lemma NotAtEnd(cd: Coding, file: seq<Byte>, es: seq<Entry>, pos: int, i: nat)
    requires AtEntry(cd, file, es, pos, i) && pos < |Data(cd, es)|
    ensures i < |es|
  {
    assert es[..|es|] == es;
    hide Data;
  }

  lemma AtEnd(cd: Coding, file: seq<Byte>, es: seq<Entry>, pos: int, i: nat)
    requires AtEntry(cd, file, es, pos, i) && pos >= |Data(cd, es)|
    ensures i == |es|
  {
    assert es[..|es|] == es;
    if i < |es| { EntryHere(cd, file, es, pos, i); }
    hide Data;
  }


  lemma SmallTable(cd: Coding, es: seq<Entry>, f: Filter)
    requires Writable(cd, es, f)
    ensures |es| <= MAX_ENTRIES && Keyed(cd, es) && Sound(f)
  {}

  /** The index section, read mark by mark. */
  method ReadIndex(cd: Coding, file: seq<Byte>, start: int, ghost es: seq<Entry>) returns (ms: seq<Mark>)
    requires Keyed(cd, es) && |es| <= MAX_ENTRIES && StandsAt(file, start, IndexBytes(cd, Marks(cd, es, |es|)))
    ensures ms == Marks(cd, es, |es|)
  {
    hide Concat, StandsAt, Num, Int, NumberIn, Marks, MarkBytes;
    ghost var marks := Marks(cd, es, |es|);
    PartOf(file, start, Num(|marks|, 4), Concat(MarkCoder(cd), marks));
    ReadNum(file, start, |marks|, 4);
    var n := Int(file[start..start + 4]);
    var pos := start + 4;
    ms := [];
    var i: nat := 0;
    ConcatNone(MarkCoder(cd), marks);
    while i < n
      invariant i <= n == |marks| && ms == marks[..i] && pos == start + 4 + |Concat(MarkCoder(cd), marks[..i])|
    {
      PieceAt(MarkCoder(cd), marks, i);
      StandsInside(file, start + 4, Concat(MarkCoder(cd), marks), pos - start - 4, MarkBytes(cd, marks[i]));
      MarkFields(cd, file, pos, marks[i]);
      MarkFits(cd, es, i);
      ReadNum(file, pos, |cd.enc(marks[i].key)|, 4);
      var kl := Int(file[pos..pos + 4]);
      pos := pos + 4;
      PartIs(file, pos, cd.enc(marks[i].key));
      var k := file[pos..pos + kl];
      pos := pos + kl;
      ReadNum(file, pos, marks[i].offset, 8);
      var off := NumberIn(file[pos..pos + 8]);
      pos := pos + 8;
      ms := ms + [Mark(cd.dec(k), off)];
      i := i + 1;
    }
    assert marks[..i] == marks;
  }

  lemma MarkFits(cd: Coding, es: seq<Entry>, j: nat)
    requires |es| <= MAX_ENTRIES && j < |Marks(cd, es, |es|)|
    ensures Marks(cd, es, |es|)[j].offset < 0x1_0000_0000_0000_0000
    ensures Keyed(cd, es) ==> Codable(cd, Marks(cd, es, |es|)[j].key)
  {
    hide Concat;
    SizesFit(cd, es);
    OffsetsGrow(cd, es, 64 * j, |es|);
    assert es[..|es|] == es;
  }

  /** `readFrom` of the filter. */
  method ReadFilter(file: seq<Byte>, start: int, ghost f: Filter) returns (g: Filter)
    requires Sound(f) && StandsAt(file, start, FilterBytes(f))
    ensures g == f
  {
    hide Concat, StandsAt, Num, Int, NumberIn;
    FilterFields(file, start, f);
    ReadNum(file, start, f.numBits, 8);
    ReadNum(file, start + 8, f.numHashes, 4);
    ReadNum(file, start + 12, |f.bits|, 4);
    var numBits := NumberIn(file[start..start + 8]);
    var numHashes := Int(file[start + 8..start + 12]);
    var len := Int(file[start + 12..start + 16]);
    var bits: seq<nat> := [];
    var i: nat := 0;
    ConcatNone(WordCoder(), f.bits);
    while i < len
      invariant i <= len == |f.bits| && bits == f.bits[..i] && |Concat(WordCoder(), f.bits[..i])| == 8 * i
    {
      var pos := start + 16 + 8 * i;
      PieceAt(WordCoder(), f.bits, i);
      StandsInside(file, start + 16, Concat(WordCoder(), f.bits), 8 * i, WordCoder()(f.bits[i]));
      ReadNum(file, pos, f.bits[i], 8);
      bits := bits + [NumberIn(file[pos..pos + 8])];
      i := i + 1;
    }
    assert f.bits[..i] == f.bits;
    g := Filter(numBits, numHashes, bits);
  }
}
