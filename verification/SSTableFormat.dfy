/** The file layout of `Java-LSM/src/lsm/SSTable.java`: data, sparse index, Bloom filter, footer. */
module SSTableFormat {
  import opened LsmBytes
  import opened LsmTables
  import opened BloomFilters

  const SPARSE := 64
  const MAGIC := 0x4C53_4D5F_5353_5431
  const FOOTER_BYTES := 28

  /** More entries than this never fit the two gigabytes a table may have. */
  const MAX_ENTRIES := 0x3fff_ffff

  // ---------------------------------------------------------------- runs of pieces

  function Concat<T>(code: T -> seq<Byte>, xs: seq<T>): seq<Byte> {
    if xs == [] then [] else Concat(code, xs[..|xs| - 1]) + code(xs[|xs| - 1])
  }

  lemma ConcatSnoc<T>(code: T -> seq<Byte>, xs: seq<T>, n: nat)
    requires n < |xs|
    ensures Concat(code, xs[..n + 1]) == Concat(code, xs[..n]) + code(xs[n])
  {
    assert xs[..n + 1][..n] == xs[..n];
  }

  /** Piece `n` of a run stands where the pieces before it end. */
  lemma {:induction false} PieceAt<T>(code: T -> seq<Byte>, xs: seq<T>, n: nat)
    requires n < |xs|
    ensures StandsAt(Concat(code, xs), |Concat(code, xs[..n])|, code(xs[n]))
    ensures |Concat(code, xs[..n + 1])| == |Concat(code, xs[..n])| + |code(xs[n])|
    decreases |xs|
  {
    ConcatSnoc(code, xs, n);
    var m := |xs| - 1;
    var front := Concat(code, xs[..m]);
    if n < m {
      PieceAt(code, xs[..m], n);
      assert xs[..m][..n] == xs[..n] && xs[..m][n] == xs[n];
      StandsInLonger(front, code(xs[m]), |Concat(code, xs[..n])|, code(xs[n]));
    } else {
      Joined(front, code(xs[m]), []);
      assert front + code(xs[m]) + [] == Concat(code, xs);
    }
  }

  lemma StandsInLonger(file: seq<Byte>, more: seq<Byte>, pos: int, part: seq<Byte>)
    requires StandsAt(file, pos, part)
    ensures StandsAt(file + more, pos, part)
  {
    assert (file + more)[pos..pos + |part|] == file[pos..pos + |part|];
  }

  /** A piece of a part of a file is where both positions add up. */
  lemma StandsInside(file: seq<Byte>, pos: int, part: seq<Byte>, at: int, piece: seq<Byte>)
    requires StandsAt(file, pos, part) && StandsAt(part, at, piece)
    ensures StandsAt(file, pos + at, piece)
  {
    assert file[pos + at..pos + at + |piece|] == part[at..at + |piece|] by {
      SliceOfSlice(file, pos, pos + |part|, at, at + |piece|);
    }
  }

  lemma SliceOfSlice(s: seq<Byte>, p: nat, q: nat, i: nat, j: nat)
    requires p <= q <= |s| && i <= j <= q - p
    ensures s[p..q][i..j] == s[p + i..p + j]
  {
    var a, b := s[p..q][i..j], s[p + i..p + j];
    assert |a| == |b|;
    forall m | 0 <= m < |a| ensures a[m] == b[m] {
      assert a[m] == s[p..q][i + m] == s[p + i + m];
    }
  }

  // ---------------------------------------------------------------- the data section

  function EntryBytes(cd: Coding, e: Entry): seq<Byte> {
    var k := cd.enc(e.key);
    Num(|k|, 4) + (k + CellBytes(e.cell))
  }

  function CellBytes(c: Cell): seq<Byte> {
    match c
    case Tombstone => [0]
    case Value(v) => [1] + (Num(|v|, 4) + v)
  }

  function EntryCoder(cd: Coding): Entry -> seq<Byte> {
    e => EntryBytes(cd, e)
  }

  function Data(cd: Coding, es: seq<Entry>): seq<Byte> {
    Concat(EntryCoder(cd), es)
  }

  /** Where entry `i` begins. */
  function Offset(cd: Coding, es: seq<Entry>, i: nat): nat
    requires i <= |es|
  {
    |Data(cd, es[..i])|
  }

  /** The fields of an entry, as a reader meets them. */
  lemma EntryFields(cd: Coding, file: seq<Byte>, pos: int, e: Entry)
    requires StandsAt(file, pos, EntryBytes(cd, e))
    ensures var k := cd.enc(e.key);
      && StandsAt(file, pos, Num(|k|, 4)) && StandsAt(file, pos + 4, k) &&
        StandsAt(file, pos + 4 + |k|, CellBytes(e.cell))
      && |EntryBytes(cd, e)| == 4 + |k| + |CellBytes(e.cell)|
  {
    hide StandsAt, CellBytes;
    var k := cd.enc(e.key);
    PartOf(file, pos, Num(|k|, 4), k + CellBytes(e.cell));
    PartOf(file, pos + 4, k, CellBytes(e.cell));
  }

  lemma CellFields(file: seq<Byte>, pos: int, c: Cell)
    requires StandsAt(file, pos, CellBytes(c))
    ensures 0 <= pos < |file| && file[pos] == (if c.Value? then 1 else 0)
    ensures c.Value? ==> StandsAt(file, pos + 1, Num(|c.value|, 4)) && StandsAt(file, pos + 5, c.value)
    ensures |CellBytes(c)| == if c.Value? then 5 + |c.value| else 1
  {
    assert file[pos] == file[pos..pos + |CellBytes(c)|][0];
    if c.Value? {
      hide StandsAt;
      PartOf(file, pos, [1], Num(|c.value|, 4) + c.value);
      PartOf(file, pos + 1, Num(|c.value|, 4), c.value);
    }
  }

  // ---------------------------------------------------------------- the sparse index

  datatype Mark = Mark(key: int, offset: nat)

  /** One mark for every 64th of the first `n` entries. */
  function Marks(cd: Coding, es: seq<Entry>, n: nat): (ms: seq<Mark>)
    requires n <= |es|
    ensures |ms| == (n + 63) / 64
  {
    seq((n + 63) / 64, j requires 0 <= j < (n + 63) / 64 => Mark(es[64 * j].key, Offset(cd, es, 64 * j)))
  }

  function MarkBytes(cd: Coding, m: Mark): seq<Byte> {
    var k := cd.enc(m.key);
    Num(|k|, 4) + (k + Num(m.offset, 8))
  }

  function MarkCoder(cd: Coding): Mark -> seq<Byte> {
    m => MarkBytes(cd, m)
  }

  function IndexBytes(cd: Coding, ms: seq<Mark>): seq<Byte> {
    Num(|ms|, 4) + Concat(MarkCoder(cd), ms)
  }

  lemma MarkFields(cd: Coding, file: seq<Byte>, pos: int, m: Mark)
    requires StandsAt(file, pos, MarkBytes(cd, m))
    ensures var k := cd.enc(m.key);
      && StandsAt(file, pos, Num(|k|, 4)) && StandsAt(file, pos + 4, k) &&
        StandsAt(file, pos + 4 + |k|, Num(m.offset, 8))
      && |MarkBytes(cd, m)| == 12 + |k|
  {
    hide StandsAt;
    var k := cd.enc(m.key);
    PartOf(file, pos, Num(|k|, 4), k + Num(m.offset, 8));
    PartOf(file, pos + 4, k, Num(m.offset, 8));
  }

  /** The last mark at or before a key: -1 when there is none. */
  function Floor(ms: seq<Mark>, k: int): (r: int)
    ensures -1 <= r < |ms|
    ensures r >= 0 ==> ms[r].key <= k
  {
    if ms == [] then -1
    else if ms[|ms| - 1].key <= k then |ms| - 1
    else Floor(ms[..|ms| - 1], k)
  }

  lemma {:induction false} FloorIsLast(ms: seq<Mark>, k: int, j: nat)
    requires Floor(ms, k) < j < |ms|
    ensures ms[j].key > k
  {
    if ms[|ms| - 1].key > k && j < |ms| - 1 { FloorIsLast(ms[..|ms| - 1], k, j); }
  }

  // ---------------------------------------------------------------- the filter and the footer

  function WordCoder(): nat -> seq<Byte> {
    w => Num(w, 8)
  }

  function FilterBytes(f: Filter): seq<Byte> {
    Num(f.numBits, 8) + (Num(f.numHashes, 4) + (Num(|f.bits|, 4) + Concat(WordCoder(), f.bits)))
  }

  function Footer(dataSize: nat, indexSize: nat, count: nat): seq<Byte> {
    Num(dataSize, 8) + (Num(dataSize + indexSize, 8) + (Num(count, 4) + Num(MAGIC, 8)))
  }

  /** The whole file. */
  function TableFile(cd: Coding, es: seq<Entry>, f: Filter): seq<Byte> {
    var data, index := Data(cd, es), IndexBytes(cd, Marks(cd, es, |es|));
    data + (index + (FilterBytes(f) + Footer(|data|, |index|, |es|)))
  }

  ghost predicate Keyed(cd: Coding, es: seq<Entry>) {
    forall i :: 0 <= i < |es| ==> Codable(cd, es[i].key)
  }

  /** What is written and opened: codable entries in strict order, a filter that knows all their keys. */
  ghost predicate Writable(cd: Coding, es: seq<Entry>, f: Filter) {
    && Keyed(cd, es) && Ascending(es) && |es| <= MAX_ENTRIES && Sound(f)
    && forall i :: 0 <= i < |es| ==> Claims(f, cd.enc(es[i].key))
  }

  lemma SectionsStand(cd: Coding, es: seq<Entry>, f: Filter)
    ensures var file, data, index := TableFile(cd, es, f), Data(cd, es), IndexBytes(cd, Marks(cd, es, |es|));
      && StandsAt(file, 0, data) && StandsAt(file, |data|, index) && StandsAt(file, |data| + |index|, FilterBytes(f))
      && StandsAt(file, |data| + |index| + |FilterBytes(f)|, Footer(|data|, |index|, |es|))
      && |file| == |data| + |index| + |FilterBytes(f)| + FOOTER_BYTES
  {
    hide StandsAt, Data, IndexBytes, FilterBytes, Marks;
    var file, data, index := TableFile(cd, es, f), Data(cd, es), IndexBytes(cd, Marks(cd, es, |es|));
    var foot := Footer(|data|, |index|, |es|);
    WholeStands(file);
    PartOf(file, 0, data, index + (FilterBytes(f) + foot));
    PartOf(file, |data|, index, FilterBytes(f) + foot);
    PartOf(file, |data| + |index|, FilterBytes(f), foot);
  }

  lemma WholeStands(file: seq<Byte>)
    ensures StandsAt(file, 0, file)
  {
    assert file[0..|file|] == file;
  }

  lemma FooterFields(file: seq<Byte>, pos: int, dataSize: nat, indexSize: nat, count: nat)
    requires StandsAt(file, pos, Footer(dataSize, indexSize, count))
    ensures StandsAt(file, pos, Num(dataSize, 8)) && StandsAt(file, pos + 8, Num(dataSize + indexSize, 8))
    ensures StandsAt(file, pos + 16, Num(count, 4)) && StandsAt(file, pos + 20, Num(MAGIC, 8))
  {
    hide StandsAt, Num;
    PartOf(file, pos, Num(dataSize, 8), Num(dataSize + indexSize, 8) + (Num(count, 4) + Num(MAGIC, 8)));
    PartOf(file, pos + 8, Num(dataSize + indexSize, 8), Num(count, 4) + Num(MAGIC, 8));
    PartOf(file, pos + 16, Num(count, 4), Num(MAGIC, 8));
  }

  lemma FilterFields(file: seq<Byte>, pos: int, f: Filter)
    requires StandsAt(file, pos, FilterBytes(f))
    ensures StandsAt(file, pos, Num(f.numBits, 8)) && StandsAt(file, pos + 8, Num(f.numHashes, 4))
    ensures StandsAt(file, pos + 12, Num(|f.bits|, 4)) && StandsAt(file, pos + 16, Concat(WordCoder(), f.bits))
  {
    hide StandsAt, Num, Concat;
    var words := Concat(WordCoder(), f.bits);
    PartOf(file, pos, Num(f.numBits, 8), Num(f.numHashes, 4) + (Num(|f.bits|, 4) + words));
    PartOf(file, pos + 8, Num(f.numHashes, 4), Num(|f.bits|, 4) + words);
    PartOf(file, pos + 12, Num(|f.bits|, 4), words);
  }

  // ---------------------------------------------------------------- sizes

  /** No offset comes near the limit of a long. */
  lemma {:induction false} DataSmall(cd: Coding, es: seq<Entry>, n: nat)
    requires n <= |es|
    ensures Offset(cd, es, n) <= n * 0x1_0000_0007
    decreases n
  {
    if n > 0 {
      DataSmall(cd, es, n - 1);
      PieceAt(EntryCoder(cd), es, n - 1);
      EntrySmall(cd, es[n - 1]);
    }
  }

  lemma EntrySmall(cd: Coding, e: Entry)
    ensures 0 < |EntryBytes(cd, e)| <= 0x1_0000_0007
  {}

  lemma {:induction false} MarksSmall(cd: Coding, ms: seq<Mark>)
    ensures |Concat(MarkCoder(cd), ms)| <= |ms| * 0x8000_000b
  {
    if ms != [] { MarksSmall(cd, ms[..|ms| - 1]); }
  }

  lemma SizesFit(cd: Coding, es: seq<Entry>)
    requires |es| <= MAX_ENTRIES
    ensures |Data(cd, es)| < 0x7000_0000_0000_0000
    ensures |Data(cd, es)| + |IndexBytes(cd, Marks(cd, es, |es|))| < 0x8000_0000_0000_0000
  {
    assert es[..|es|] == es;
    DataSmall(cd, es, |es|);
    MarksSmall(cd, Marks(cd, es, |es|));
  }
}
