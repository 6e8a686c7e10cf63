/** The counters of `C-Allocator/src/balloc.c` as sums over the blocks, and their conservation law. */
module AllocStats {
  import opened AllocLayout

  datatype Stats = Stats(bytesInUse: int, bytesFree: int, blocksInUse: int, blocksFree: int, heapBytes: int,
      chunks: int)

  ghost function Sum(b: Blocks, w: Blk -> int): int
    decreases |b|
  {
    if forall p :: p !in b then 0
    else
      var p :| p in b;
      w(b[p]) + Sum(b - {p}, w)
  }

  lemma {:induction false} SumTakes(b: Blocks, w: Blk -> int, p: int)
    requires p in b
    ensures Sum(b, w) == w(b[p]) + Sum(b - {p}, w)
    decreases |b|
  {
    var q :| q in b && Sum(b, w) == w(b[q]) + Sum(b - {q}, w);
    if q != p {
      SumTakes(b - {q}, w, p);
      SumTakes(b - {p}, w, q);
      assert b - {q} - {p} == b - {p} - {q};
    }
  }

  lemma SumPuts(b: Blocks, w: Blk -> int, p: int, k: Blk)
    requires p !in b
    ensures Sum(b[p := k], w) == w(k) + Sum(b, w)
  {
    SumTakes(b[p := k], w, p);
    assert b[p := k] - {p} == b;
  }

  /** Payload bytes of the blocks in use, or of the free ones. */
  ghost function Bytes(used: bool): Blk -> int {
    (k: Blk) => if k.used == used then 8 * k.size - 16 else 0
  }

  ghost function Ones(used: bool): Blk -> int {
    (k: Blk) => if k.used == used then 1 else 0
  }

  ghost function Words(): Blk -> int {
    (k: Blk) => k.size
  }

  /** The block counters are what they say. */
  ghost predicate Counted(st: Stats, b: Blocks) {
    && st.bytesInUse == Sum(b, Bytes(true)) && st.bytesFree == Sum(b, Bytes(false))
    && st.blocksInUse == Sum(b, Ones(true)) && st.blocksFree == Sum(b, Ones(false))
  }

  /** The counters after one more block, and after one less. */
  function Plus(st: Stats, k: Blk): Stats {
    if k.used then st.(bytesInUse := st.bytesInUse + (8 * k.size - 16), blocksInUse := st.blocksInUse + 1)
    else st.(bytesFree := st.bytesFree + (8 * k.size - 16), blocksFree := st.blocksFree + 1)
  }

  function Minus(st: Stats, k: Blk): Stats {
    if k.used then st.(bytesInUse := st.bytesInUse - (8 * k.size - 16), blocksInUse := st.blocksInUse - 1)
    else st.(bytesFree := st.bytesFree - (8 * k.size - 16), blocksFree := st.blocksFree - 1)
  }

  lemma CountedPlus(st: Stats, b: Blocks, p: int, k: Blk)
    requires Counted(st, b) && p !in b
    ensures Counted(Plus(st, k), b[p := k])
  {
    SumPuts(b, Bytes(true), p, k);
    SumPuts(b, Bytes(false), p, k);
    SumPuts(b, Ones(true), p, k);
    SumPuts(b, Ones(false), p, k);
  }

  lemma CountedMinus(st: Stats, b: Blocks, p: int)
    requires Counted(st, b) && p in b
    ensures Counted(Minus(st, b[p]), b - {p})
  {
    SumTakes(b, Bytes(true), p);
    SumTakes(b, Bytes(false), p);
    SumTakes(b, Ones(true), p);
    SumTakes(b, Ones(false), p);
  }

  // ---------------------------------------------------------------- conservation

  /** Every word of a block is payload but the two of its tags. */
  lemma {:induction false} WordsAccounted(b: Blocks)
    ensures 8 * Sum(b, Words()) == Sum(b, Bytes(true)) + Sum(b, Bytes(false)) +
      16 * (Sum(b, Ones(true)) + Sum(b, Ones(false)))
    decreases |b|
  {
    if !(forall p :: p !in b) {
      var p :| p in b;
      WordsAccounted(b - {p});
      SumTakes(b, Words(), p);
      SumTakes(b, Bytes(true), p);
      SumTakes(b, Bytes(false), p);
      SumTakes(b, Ones(true), p);
      SumTakes(b, Ones(false), p);
    }
  }

  function TotalWords(rs: seq<Region>): int {
    if rs == [] then 0 else rs[0].total + TotalWords(rs[1..])
  }

  /** The blocks cover every region but for four words of each: its header, prologue and epilogue. */
  ghost predicate Covers(b: Blocks, rs: seq<Region>) {
    Sum(b, Words()) == TotalWords(rs) - 4 * |rs|
  }

  lemma CoversRelabelled(b: Blocks, rs: seq<Region>, p: int, used: bool)
    requires Covers(b, rs) && p in b
    ensures Covers(b[p := Blk(b[p].size, used)], rs)
  {
    SumTakes(b, Words(), p);
    SumPuts(b - {p}, Words(), p, Blk(b[p].size, used));
    assert (b - {p})[p := Blk(b[p].size, used)] == b[p := Blk(b[p].size, used)];
  }

  lemma CoversFused(b: Blocks, rs: seq<Region>, p: int)
    requires Covers(b, rs) && p in b && p + b[p].size in b && b[p].size > 0
    ensures Covers(Fused(b, p), rs)
  {
    var q := p + b[p].size;
    SumTakes(b, Words(), p);
    SumTakes(b - {p}, Words(), q);
    var rest := b - {p} - {q};
    SumPuts(rest, Words(), p, Fused(b, p)[p]);
    assert rest[p := Fused(b, p)[p]] == Fused(b, p);
  }

  lemma CoversParted(b: Blocks, rs: seq<Region>, p: int, size: int)
    requires Covers(b, rs) && Partable(b, p, size) && p + size !in b
    ensures Covers(Parted(b, p, size), rs)
  {
    var f := Parted(b, p, size);
    SumTakes(b, Words(), p);
    SumPuts(b - {p}, Words(), p, f[p]);
    SumPuts((b - {p})[p := f[p]], Words(), p + size, f[p + size]);
    assert (b - {p})[p := f[p]][p + size := f[p + size]] == f;
  }

  lemma CoversGrown(b: Blocks, rs: seq<Region>, r: Region)
    requires Covers(b, rs) && Start(r) !in b
    ensures Covers(Grown(b, r), [r] + rs)
  {
    SumPuts(b, Words(), Start(r), Blk(r.total - 4, false));
    assert ([r] + rs)[1..] == rs;
  }

  /** Every byte from the operating system is payload, a tag, or framing. */
  lemma HeapConserved(st: Stats, b: Blocks, rs: seq<Region>)
    requires Counted(st, b) && Covers(b, rs) && st.heapBytes == 8 * TotalWords(rs) && st.chunks == |rs|
    ensures st.heapBytes == st.bytesInUse + st.bytesFree + 16 * (st.blocksInUse + st.blocksFree) + 32 * st.chunks
  {
    WordsAccounted(b);
  }
}
