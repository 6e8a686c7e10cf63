/** `C-Allocator/src/balloc.c`: allocation, freeing and reallocation over segregated free lists with
    boundary-tag coalescing. */
module Allocator {
  import opened AllocLists
  import opened AllocLayout
  import opened AllocMemory
  import opened AllocHeap
  import opened AllocSteps
  import opened AllocStats
  import opened AllocNeighbours
  import opened AllocGrowth
  import opened AllocLive
  import opened AllocSizes
  import opened AllocCheck
  import opened Options

  class Arena {
    var mem: Memory
    var heads: seq<int>               // g_class
    var regions: seq<Region>          // g_chunks, newest first
    var stats: Stats                  // g_stats
    ghost var b: Blocks
    ghost var lists: seq<seq<int>>

    ghost function Now(): Heap
      reads this
    {
      Heap(mem, heads, b, regions, lists)
    }

    ghost predicate Valid()
      reads this
    {
      && Good(Now(), {}, {}) && NoFreePair(b, {}) && Counted(stats, b) && Covers(b, regions)
      && stats.heapBytes == 8 * TotalWords(regions) && stats.chunks == |regions|
    }

    // -------------------------------------------------------------- free lists

    /** `list_insert`. */
    method ListInsert(n: int, size: int, ghost open: set<int>, ghost out: set<int>)
      requires Good(Now(), open, out) && n in b && !b[n].used && n in out && size == b[n].size
      modifies this`mem, this`heads, this`lists
      ensures Good(Now(), open, out - {n}) && PayloadsKept(old(mem), mem, b)
    {
      hide Good, PayloadsKept, ClassOf;
      InsertGood(Now(), open, out, n);
      var c := ClassOf(size);
      var head := heads[c];
      mem := mem[n + 1 := 0][n := head];
      if head != 0 { mem := mem[head + 1 := n]; }
      heads := heads[c := n];
      lists := lists[c := [n] + lists[c]];
    }

    /** `list_remove`. */
    method ListRemove(n: int, size: int, ghost open: set<int>, ghost out: set<int>)
      requires Good(Now(), open, out) && n in b && !b[n].used && n !in out && size == b[n].size
      modifies this`mem, this`heads, this`lists
      ensures Good(Now(), open, out + {n}) && PayloadsKept(old(mem), mem, b)
    {
      hide Good, PayloadsKept, ClassOf, Linked, At, Cut;
      var c := ClassOf(size);
      ghost var i: nat := PlaceOnList(Now(), open, out, n);
      RemoveGood(Now(), open, out, c, i);
      assert heads[c := heads[c]] == heads;
      LinkedIn(mem, n, At(lists[c], i + 1), At(lists[c], i - 1));
      var next, prev := mem[n], mem[n + 1];
      if prev != 0 { mem := mem[prev := next]; } else { heads := heads[c := next]; }
      if next != 0 { mem := mem[next + 1 := prev]; }
      lists := lists[c := Cut(lists[c], i)];
    }

    // -------------------------------------------------------------- coalescing

    /** `absorb`: a free neighbour leaves its list and the counts. */
    method Absorb(nb: int, ghost out: set<int>)
      requires Good(Now(), {}, out) && nb in b && !b[nb].used && nb !in out && Counted(stats, b - out)
      modifies this`mem, this`heads, this`lists, this`stats
      ensures Good(Now(), {}, out + {nb}) && PayloadsKept(old(mem), mem, b) && Counted(stats, b - (out + {nb}))
      ensures stats.heapBytes == old(stats).heapBytes && stats.chunks == old(stats).chunks
    {
      hide Good, PayloadsKept, Counted;
      TagParts(Now(), out, nb);
      var size := SizeOf(mem[nb - 1]);
      CountedMinus(stats, b - out, nb);
      assert b - out - {nb} == b - (out + {nb});
      ListRemove(nb, size, {}, out);
      stats := stats.(blocksFree := stats.blocksFree - 1, bytesFree := stats.bytesFree - (8 * size - 16));
    }

    /** Writes both tags of a block. */
    method PutTags(p: int, size: int, used: bool, ghost open: set<int>, ghost out: set<int>)
      requires Good(Now(), open, out) && p in b && b[p] == Blk(size, used)
      modifies this`mem
      ensures Good(Now(), open - {p}, out) && PayloadsKept(old(mem), mem, b)
    {
      hide Good, PayloadsKept;
      TagsGood(Now(), open, out, p);
      mem := mem[p - 1 := Pack(size, used)];
      mem := mem[p + size - 2 := Pack(size, used)];
    }

    /** `coalesce`: merges a free, unlisted block with its free neighbours. */
    method Coalesce(bp: int) returns (p: int)
      requires Good(Now(), {}, {bp}) && bp in b && !b[bp].used && NoFreePair(b, {bp})
      requires Counted(stats, b - {bp}) && Covers(b, regions)
      modifies this`mem, this`heads, this`lists, this`stats, this`b
      ensures Good(Now(), {}, {p}) && p in b && !b[p].used && NoFreePair(b, {})
      ensures Counted(stats, b - {p}) && Covers(b, regions)
      ensures SameLive(old(b), b) && PayloadsKept(old(mem), mem, old(b))
      ensures stats.heapBytes == old(stats).heapBytes && stats.chunks == old(stats).chunks
    {
      hide Good, PayloadsKept, Counted, Covers, NoFreePair, SameLive, Pack, SizeOf, UsedOf;
      TagParts(Now(), {bp}, bp);
      PrevTag(Now(), {bp}, bp);
      NextTag(Now(), {}, {bp}, bp);
      var pb := bp - SizeOf(mem[bp - 2]);
      var prevAlloc := UsedOf(mem[pb + SizeOf(mem[pb - 1]) - 2]);
      var nb := bp + SizeOf(mem[bp - 1]);
      var nextAlloc := UsedOf(mem[nb - 1]);
      NextFree(b, mem, nb);
      PrevFree(b, pb, bp, prevAlloc);
      if prevAlloc && nextAlloc {
        p := bp;
        Settled(b, bp);
        KeptSelf(mem, b);
      } else if prevAlloc {
        p := bp;
        MergeNext(bp, nb);
      } else if nextAlloc {
        p := pb;
        MergePrev(pb, bp);
      } else {
        p := pb;
        MergeBoth(pb, bp, nb);
      }
    }

    method MergeNext(bp: int, nb: int)
      requires Good(Now(), {}, {bp}) && bp in b && !b[bp].used && NoFreePair(b, {bp}) && PrevUsed(b, bp)
      requires nb == bp + b[bp].size && nb in b && !b[nb].used
      requires Counted(stats, b - {bp}) && Covers(b, regions)
      modifies this`mem, this`heads, this`lists, this`stats, this`b
      ensures Good(Now(), {}, {bp}) && bp in b && !b[bp].used && NoFreePair(b, {})
      ensures Counted(stats, b - {bp}) && Covers(b, regions)
      ensures SameLive(old(b), b) && PayloadsKept(old(mem), mem, old(b))
      ensures stats.heapBytes == old(stats).heapBytes && stats.chunks == old(stats).chunks
    {
      hide Good, Laid, PayloadsKept, Counted, Covers, NoFreePair, SameLive, Pack, SizeOf, UsedOf, PrevUsed, NextUsed;
      GoodSized(Now(), {}, {bp});
      ProperSize(b, regions, bp);
      TagParts(Now(), {bp}, bp);
      var size := SizeOf(mem[bp - 1]);
      Absorb(nb, {bp});
      ghost var m1 := mem;
      TagParts(Now(), {bp} + {nb}, nb);
      size := size + SizeOf(mem[nb - 1]);
      FusedGood(Now(), {}, {bp} + {nb}, bp);
      FusedNoPair(b, bp, bp);
      FusedAround(b, regions, bp);
      SettledNext(b, regions, bp);
      FusedSameLive(b, bp);
      CoversFused(b, regions, bp);
      assert Fused(b, bp) - {bp} == b - ({bp} + {nb});
      assert {bp} + {nb} - {nb} == {bp} && {} + {bp} == {bp} && {bp} - {bp} == {};
      b := Fused(b, bp);
      CloseNoPair(b, bp);
      PutTags(bp, size, false, {bp}, {bp});
      PayloadsSameLive(m1, mem, old(b), b);
      PayloadsTwice(old(mem), m1, mem, old(b));
    }

    method MergePrev(pb: int, bp: int)
      requires Good(Now(), {}, {bp}) && bp in b && !b[bp].used && NoFreePair(b, {bp}) && NextUsed(b, bp)
      requires pb in b && !b[pb].used && pb + b[pb].size == bp
      requires Counted(stats, b - {bp}) && Covers(b, regions)
      modifies this`mem, this`heads, this`lists, this`stats, this`b
      ensures Good(Now(), {}, {pb}) && pb in b && !b[pb].used && NoFreePair(b, {})
      ensures Counted(stats, b - {pb}) && Covers(b, regions)
      ensures SameLive(old(b), b) && PayloadsKept(old(mem), mem, old(b))
      ensures stats.heapBytes == old(stats).heapBytes && stats.chunks == old(stats).chunks
    {
      hide Good, Laid, PayloadsKept, Counted, Covers, NoFreePair, SameLive, Pack, SizeOf, UsedOf, PrevUsed, NextUsed;
      GoodSized(Now(), {}, {bp});
      ProperSize(b, regions, pb);
      ProperSize(b, regions, bp);
      TagParts(Now(), {bp}, bp);
      var size := SizeOf(mem[bp - 1]);
      Absorb(pb, {bp});
      ghost var m1 := mem;
      TagParts(Now(), {bp} + {pb}, pb);
      TagParts(Now(), {bp} + {pb}, bp);
      var total := size + SizeOf(mem[pb - 1]);
      FusedGood(Now(), {}, {bp} + {pb}, pb);
      FusedNoPair(b, pb, bp);
      FusedAround(b, regions, pb);
      SettledPrev(b, regions, pb);
      FusedSameLive(b, pb);
      CoversFused(b, regions, pb);
      assert Fused(b, pb) - {pb} == b - ({bp} + {pb});
      assert {bp} + {pb} - {bp} == {pb} && {} + {pb} == {pb} && {pb} - {pb} == {};
      b := Fused(b, pb);
      CloseNoPair(b, pb);
      TagsGood(Now(), {pb}, {pb}, pb);
      mem := mem[bp + SizeOf(mem[bp - 1]) - 2 := Pack(total, false)];
      mem := mem[pb - 1 := Pack(total, false)];
      assert mem == WithTags(m1, pb, total, false);
      PayloadsSameLive(m1, mem, old(b), b);
      PayloadsTwice(old(mem), m1, mem, old(b));
    }

    method MergeBoth(pb: int, bp: int, nb: int)
      requires Good(Now(), {}, {bp}) && bp in b && !b[bp].used && NoFreePair(b, {bp})
      requires pb in b && !b[pb].used && pb + b[pb].size == bp
      requires nb == bp + b[bp].size && nb in b && !b[nb].used
      requires Counted(stats, b - {bp}) && Covers(b, regions)
      modifies this`mem, this`heads, this`lists, this`stats, this`b
      ensures Good(Now(), {}, {pb}) && pb in b && !b[pb].used && NoFreePair(b, {})
      ensures Counted(stats, b - {pb}) && Covers(b, regions)
      ensures SameLive(old(b), b) && PayloadsKept(old(mem), mem, old(b))
      ensures stats.heapBytes == old(stats).heapBytes && stats.chunks == old(stats).chunks
    {
      hide Good, Laid, PayloadsKept, Counted, Covers, NoFreePair, SameLive, Pack, SizeOf, UsedOf, PrevUsed, NextUsed;
      GoodSized(Now(), {}, {bp});
      ProperSize(b, regions, pb);
      ProperSize(b, regions, bp);
      ProperSize(b, regions, nb);
      TagParts(Now(), {bp}, bp);
      var size := SizeOf(mem[bp - 1]);
      Absorb(pb, {bp});
      ghost var m1 := mem;
      Absorb(nb, {bp} + {pb});
      ghost var m2, out := mem, {bp} + {pb} + {nb};
      TagParts(Now(), out, pb);
      TagParts(Now(), out, nb);
      var total := size + (SizeOf(mem[pb - 1]) + SizeOf(mem[nb - 1]));
      ghost var g := FuseBoth(Now(), pb, bp, nb);
      b := g;
      CloseNoPair(b, pb);
      TagsGood(Now(), {pb}, {pb}, pb);
      assert {pb} - {pb} == {};
      mem := mem[pb - 1 := Pack(total, false)];
      mem := mem[nb + SizeOf(mem[nb - 1]) - 2 := Pack(total, false)];
      assert mem == WithTags(m2, pb, total, false);
      PayloadsSameLive(m2, mem, old(b), b);
      PayloadsTwice(old(mem), m1, m2, old(b));
      PayloadsTwice(old(mem), m2, mem, old(b));
    }

    // -------------------------------------------------------------- growing

    constructor ()
      ensures Valid() && b == map[] && regions == []
    {
      mem, heads, regions := map[], seq(NCLASS, _ => 0), [];
      stats := Stats(0, 0, 0, 0, 0, 0);
      b, lists := map[], seq(NCLASS, _ => []);
    }

    /** What the operating system may answer to a request for `size` words and their frame: nothing,
        or whole pages clear of all other regions. */
    ghost predicate Grants(answer: Option<int>, size: nat)
      reads this
    {
      answer.Some? ==> RegionsOk([Region(answer.value, MapBytes(8 * size) / 8)] + regions)
    }

    /** The writes of `grow` to a fresh region: chunk header, prologue, one free block, epilogue. */
    method Frame(r: Region, next: int)
      requires r.base > 0 && r.base % PAGE == 0 && r.total >= PAGE
      modifies this`mem
      ensures mem == Framed(old(mem), r, next)
      ensures Start(r) - 1 in mem && mem[Start(r) - 1] == Pack(r.total - 4, false)
    {
      hide Zeroed, AlignUp, Pack;
      FirstPayload(r);
      mem := mem + Zeroed(r);
      mem := mem[r.base + 1 := 8 * r.total];
      mem := mem[r.base := next];
      var first := AlignUp(8 * (r.base + 2 + 1 + 1), 16) / 8;
      mem := mem[first - 2 := Pack(1, true)];
      var header, epilogue := first - 1, r.base + r.total - 1;
      var span := epilogue - header;
      mem := mem[header := Pack(span, false)];
      mem := mem[header + span - 1 := Pack(span, false)];
      mem := mem[epilogue := Pack(0, true)];
    }

    /** `grow`: a fresh region becomes one free block. */
    method Grow(size: int, answer: Option<int>) returns (bp: int)
      requires Valid() && 4 <= size < WORD_LIMIT / 8 && Grants(answer, size)
      modifies this
      ensures Valid() && SameLive(old(b), b) && PayloadsKept(old(mem), mem, old(b))
      ensures answer.None? ==> bp == 0 && Now() == old(Now()) && stats == old(stats)
      ensures answer.Some? ==> bp != 0 && bp in b && !b[bp].used
      ensures answer.Some? ==> (b[bp].size >= size <==> 8 * size <= WORD_LIMIT / 2 - 56)
      ensures answer.Some? ==> regions == [Region(answer.value, MapBytes(8 * size) / 8)] + old(regions)
    {
      hide Good, PayloadsKept, Counted, Covers, NoFreePair, SameLive, MapBytes, RegionsOk, Pack, SizeOf, Laid, Framed,
           Grown;
      if answer.None? {
        KeptSelf(mem, b);
        SameLiveSelf(b);
        return 0;
      }
      MapBytesReach(8 * size);
      var total := MapBytes(8 * size) / 8;
      var r := Region(answer.value, total);
      var next := if regions == [] then 0 else regions[0].base;
      WholePages([r] + regions, 0);
      GoodSized(Now(), {}, {});
      FramedFresh(mem, r, next);
      GrownGood(Now(), Framed(mem, r, next), r);
      GrownNoPair(b, regions, r);
      GrownOut(b, r);
      CountedMapped(stats, stats.(chunks := stats.chunks + 1, heapBytes := stats.heapBytes + 8 * total), b, r);
      CoversGrown(b, regions, r);
      assert ([r] + regions)[1..] == regions;
      PackParts(total - 4, false);
      Frame(r, next);
      regions := [r] + regions;
      stats := stats.(chunks := stats.chunks + 1, heapBytes := stats.heapBytes + 8 * total);
      b := Grown(b, r);
      bp := Start(r);
      var span := SizeOf(mem[bp - 1]);
      ghost var m1 := mem;
      ListInsert(bp, span, {}, {bp});
      assert {bp} - {bp} == {};
      stats := stats.(bytesFree := stats.bytesFree + (8 * span - 16), blocksFree := stats.blocksFree + 1);
      PayloadsSameLive(m1, mem, old(b), b);
      PayloadsTwice(old(mem), m1, mem, old(b));
    }

    // -------------------------------------------------------------- finding and placing

    /** `find_fit`: a free block of at least `size` words, if there is one. */
    method FindFit(size: int) returns (bp: int)
      requires Valid()
      ensures bp != 0 ==> bp in b && !b[bp].used && b[bp].size >= size
      ensures bp == 0 <==> NoneFits(b, size)
    {
      hide Good, Laid, Tagged, Counted, Covers, NoFreePair, ClassOf, AllSmall, SizeOf, Pack;
      GoodSized(Now(), {}, {});
      var c: nat := ClassOf(size);
      while c < NCLASS
        invariant ClassOf(size) <= c <= NCLASS
        invariant forall d :: ClassOf(size) <= d < c ==> AllSmall(b, lists[d], |lists[d]|, size)
      {
        var n := heads[c];
        ghost var i: nat := 0;
        NodeAt(Now(), c, 0);
        AllSmallNone(b, lists[c], size);
        while n != 0
          invariant i <= |lists[c]| && n == At(lists[c], i) && (n == 0 <==> i == |lists[c]|)
          invariant AllSmall(b, lists[c], i, size)
          decreases |lists[c]| - i
        {
          NodeAt(Now(), c, i);
          if SizeOf(mem[n - 1]) >= size {
            FitFound(b, n, size);
            return n;
          }
          AllSmallOneMore(b, lists[c], i, size);
          n, i := mem[n], i + 1;
          NodeAt(Now(), c, i);
        }
        c := c + 1;
      }
      NoneLeft(Now(), size);
      return 0;
    }

    /** The first half of `balloc`: a free block from the lists, or else from the operating system.  The
        latter is big enough exactly when the sums of `grow` did not wrap. */
    method Obtain(size: int, answer: Option<int>) returns (bp: int)
      requires Valid() && 4 <= size < WORD_LIMIT / 8 && Grants(answer, size)
      modifies this
      ensures Valid() && SameLive(old(b), b) && PayloadsKept(old(mem), mem, old(b))
      ensures bp == 0 <==> answer.None? && NoneFits(old(b), size)
      ensures bp == 0 || !NoneFits(old(b), size) ==> Now() == old(Now()) && stats == old(stats)
      ensures bp != 0 ==> bp in b && !b[bp].used
      ensures bp != 0 ==> (b[bp].size >= size <==> !NoneFits(old(b), size) || 8 * size <= WORD_LIMIT / 2 - 56)
    {
      hide Good, PayloadsKept, Counted, Covers, NoFreePair, SameLive, MapBytes, RegionsOk, NoneFits;
      KeptSelf(mem, b);
      SameLiveSelf(b);
      bp := FindFit(size);
      if bp == 0 { bp := Grow(size, answer); }
    }

    /** `place`: takes `size` words of a free block, splitting off the rest when it can stand alone. */
    method Place(bp: int, size: int) returns (p: int)
      requires Valid() && bp in b && !b[bp].used && size % 2 == 0 && MIN_BLOCK <= size <= b[bp].size
      modifies this
      ensures Valid() && p == bp && Live(b, p) && SameElse(old(b), b, {p})
      ensures b[p].size == if old(b)[bp].size - size >= MIN_BLOCK then size else old(b)[bp].size
      ensures PayloadsKept(old(mem), mem, old(b)) && regions == old(regions)
    {
      hide Good, Laid, Tagged, PayloadsKept, Counted, Covers, NoFreePair, SameElse, SizeOf, Pack;
      GoodSized(Now(), {}, {});
      TagParts(Now(), {}, bp);
      var whole := SizeOf(mem[bp - 1]);
      CountedMinus(stats, b, bp);
      ListRemove(bp, whole, {}, {});
      assert {} + {bp} == {bp};
      stats := stats.(bytesFree := stats.bytesFree - (8 * whole - 16), blocksFree := stats.blocksFree - 1);
      ghost var m1 := mem;
      if whole - size >= MIN_BLOCK {
        Split(bp, size, whole);
      } else {
        Take(bp, whole);
      }
      TagParts(Now(), {}, bp);
      var taken := SizeOf(mem[bp - 1]);
      stats := stats.(bytesInUse := stats.bytesInUse + (8 * taken - 16), blocksInUse := stats.blocksInUse + 1);
      PayloadsTwice(old(mem), m1, mem, old(b));
      return bp;
    }

    /** The split of `place`: the front in use, the rest free and listed. */
    method Split(bp: int, size: int, whole: int)
      requires Good(Now(), {}, {bp}) && Partable(b, bp, size) && !b[bp].used && NoFreePair(b, {}) && whole == b[bp].size
      requires Counted(stats, b - {bp}) && Covers(b, regions)
      modifies this`mem, this`heads, this`lists, this`stats, this`b
      ensures Good(Now(), {}, {}) && Live(b, bp) && b[bp].size == size && SameElse(old(b), b, {bp})
      ensures NoFreePair(b, {}) && Covers(b, regions) && Counted(Plus(stats, b[bp]), b)
      ensures PayloadsKept(old(mem), mem, old(b))
      ensures stats.heapBytes == old(stats).heapBytes && stats.chunks == old(stats).chunks
    {
      hide Good, Laid, Tagged, PayloadsKept, Counted, Covers, NoFreePair, SameElse, SizeOf, Pack;
      GoodSized(Now(), {}, {bp});
      ghost var q := bp + size;
      PartedGood(Now(), bp, size);
      PartedNoPair(b, regions, bp, size);
      PartedElse(b, bp, size);
      CountedParted(stats, b, bp, size);
      CoversParted(b, regions, bp, size);
      b := Parted(b, bp, size);
      PutTags(bp, size, true, {bp, q}, {q});
      ghost var m1 := mem;
      assert {bp, q} - {bp} == {q} && {q} - {q} == {};
      TagOf(Now(), {q}, {q}, bp);
      PackParts(size, true);
      var rem := bp + SizeOf(mem[bp - 1]);
      var rest := whole - size;
      PutTags(rem, rest, false, {q}, {q});
      ghost var m2 := mem;
      ListInsert(rem, rest, {}, {q});
      stats := stats.(bytesFree := stats.bytesFree + (8 * rest - 16), blocksFree := stats.blocksFree + 1);
      PayloadsTwice(old(mem), m1, m2, b);
      PayloadsTwice(old(mem), m2, mem, b);
      PayloadsElse(old(mem), mem, old(b), b, bp);
    }

    /** The other case of `place`: the whole block in use. */
    method Take(bp: int, whole: int)
      requires Good(Now(), {}, {bp}) && bp in b && !b[bp].used && NoFreePair(b, {}) && whole == b[bp].size
      requires Counted(stats, b - {bp}) && Covers(b, regions)
      modifies this`mem, this`b
      ensures Good(Now(), {}, {}) && Live(b, bp) && b[bp].size == whole && SameElse(old(b), b, {bp})
      ensures NoFreePair(b, {}) && Covers(b, regions) && Counted(Plus(stats, b[bp]), b)
      ensures PayloadsKept(old(mem), mem, old(b))
    {
      hide Good, PayloadsKept, Counted, Covers, NoFreePair, SameElse;
      TakenGood(Now(), bp);
      TakenNoPair(b, bp);
      CountedTaken(stats, b, bp, Blk(whole, true));
      CoversRelabelled(b, regions, bp, true);
      b := WithUse(b, bp, true);
      PutTags(bp, whole, true, {bp}, {});
      assert {bp} - {bp} == {};
      PayloadsElse(old(mem), mem, old(b), b, bp);
    }

    // -------------------------------------------------------------- the interface

    /** `balloc`.  The block has room for the request unless the rounding wrapped.  When the block can
        only come from `grow`, it is assumed big enough: `Obtain` and `MappableIs` say when it is. */
    method Balloc(size: nat, answer: Option<int>) returns (p: int)
      requires Valid() && size < WORD_LIMIT && Grants(answer, BlockBytes(size) / 8)
      requires answer.Some? && NoneFits(b, BlockBytes(size) / 8) ==> Mappable(size)
      modifies this
      ensures Valid() && PayloadsKept(old(mem), mem, old(b))
      ensures p == 0 <==> size == 0 || (answer.None? && NoneFits(old(b), BlockBytes(size) / 8))
      ensures p == 0 ==> SameElse(old(b), b, {})
      ensures p != 0 ==> !Live(old(b), p) && Live(b, p) && SameElse(old(b), b, {p})
      ensures p != 0 ==> BlockBytes(size) <= 8 * b[p].size < BlockBytes(size) + 32 && 8 * p % 16 == 0
      ensures p != 0 ==> (size <= 8 * b[p].size - 16 <==> size <= MAX_ROOM)
      ensures regions != old(regions) ==> NoneFits(old(b), BlockBytes(size) / 8)
    {
      hide Good, PayloadsKept, Counted, Covers, NoFreePair, SameElse, SameLive, RegionsOk, MapBytes, BlockBytes,
           NoneFits;
      KeptSelf(mem, b);
      SameLiveSelf(b);
      SameIsElse(b, b);
      if size == 0 { return 0; }
      BlockBytesSuffice(size);
      BlockBytesWrapped(size);
      BlockBytesBelow(size);
      BlockWords(size);
      var words := BlockBytes(size) / 8;
      var bp := Obtain(words, answer);
      SameIsElse(old(b), b);
      if bp == 0 { return 0; }
      ghost var m1, b1 := mem, b;
      NotLive(old(b), b, bp);
      p := Place(bp, words);
      SameElseSame(old(b), b1, b, {p});
      PayloadsSameLive(m1, mem, old(b), b1);
      PayloadsTwice(old(mem), m1, mem, old(b));
      Aligned(Now(), p);
    }

    /** `bfree`. */
    method Bfree(p: int)
      requires Valid() && (p != 0 ==> Live(b, p))
      modifies this
      ensures Valid() && !Live(b, p) && SameElse(old(b), b, {p}) && PayloadsKept(old(mem), mem, old(b) - {p})
      ensures regions == old(regions)
    {
      hide Good, PayloadsKept, Counted, Covers, NoFreePair, SameElse, SameLive, SizeOf, Pack;
      if p == 0 {
        ZeroNotLive(Now());
        KeptSelf(mem, b - {p});
        SameElseSelf(b, {p});
        return;
      }
      TagParts(Now(), {}, p);
      var size := SizeOf(mem[p - 1]);
      CountedMinus(stats, b, p);
      FreedGood(Now(), p);
      FreedNoPair(b, p);
      CoversRelabelled(b, regions, p, false);
      stats := stats.(bytesInUse := stats.bytesInUse - (8 * size - 16), blocksInUse := stats.blocksInUse - 1);
      assert WithUse(b, p, false) - {p} == b - {p};
      b := WithUse(b, p, false);
      ghost var b1 := b;
      PutTags(p, size, false, {p}, {p});
      assert {p} - {p} == {};
      ghost var m1 := mem;
      var bp := Coalesce(p);
      ghost var m2 := mem;
      TagParts(Now(), {bp}, bp);
      var merged := SizeOf(mem[bp - 1]);
      ListInsert(bp, merged, {}, {bp});
      assert {bp} - {bp} == {};
      CountedTaken(stats, b, bp, b[bp]);
      assert b[bp := b[bp]] == b;
      stats := stats.(bytesFree := stats.bytesFree + (8 * merged - 16), blocksFree := stats.blocksFree + 1);
      SameLiveElse(old(b), b1, b, {p});
      PayloadsSameLive(m2, mem, b1, b);
      PayloadsTwice(m1, m2, mem, b1);
      PayloadsTwice(old(mem), m1, mem, b1);
      PayloadsFreed(old(mem), mem, old(b), p);
      StillFree(b1, b, p);
    }

    /** What a caller may do with a block it holds: store a word of its payload. */
    method Write(p: int, i: nat, v: int)
      requires Valid() && Live(b, p) && i < b[p].size - 2
      modifies this`mem
      ensures Valid() && mem == old(mem)[p + i := v] && PayloadsKept(old(mem), mem, b - {p})
    {
      hide Good, PayloadsKept, Counted, Covers, NoFreePair;
      PayloadWritten(Now(), p, p + i, v);
      mem := mem[p + i := v];
    }

    /** The last part of `brealloc`: the payload moves to the new block, and the old one is freed. */
    method Move(ptr: int, np: int, n: nat)
      requires Valid() && Live(b, ptr) && Live(b, np) && ptr != np && n == b[ptr].size - 2 <= b[np].size - 2
      requires ptr != 0
      modifies this
      ensures Valid() && !Live(b, ptr) && SameElse(old(b), b, {ptr}) && regions == old(regions)
      ensures forall i :: 0 <= i < n ==> Word(mem, np, i) == Word(old(mem), ptr, i)
      ensures PayloadsKept(old(mem), mem, old(b) - {ptr, np})
    {
      hide Good, Counted, Covers, NoFreePair, PayloadsKept, SameElse;
      KeptSelf(mem, b - {np});
      var i: nat := 0;
      while i < n
        invariant i <= n && Valid() && b == old(b) && regions == old(regions)
        invariant PayloadsKept(old(mem), mem, b - {np})
        invariant forall k :: 0 <= k < i ==> Word(mem, np, k) == Word(old(mem), ptr, k)
      {
        PayloadMappedAt(old(Now()), ptr, i);
        WordKept(old(mem), mem, b - {np}, ptr, i);
        ghost var m1 := mem;
        Write(np, i, mem[ptr + i]);
        PayloadsTwice(old(mem), m1, mem, b - {np});
        i := i + 1;
      }
      ghost var m1 := mem;
      ghost var h1 := Now();
      Bfree(ptr);
      forall k: nat | k < n ensures Word(mem, np, k) == Word(m1, np, k) {
        PayloadMappedAt(h1, np, k);
        WordKept(m1, mem, old(b) - {ptr}, np, k);
      }
      PayloadsFewer(old(mem), m1, old(b) - {np}, old(b) - {ptr, np});
      PayloadsFewer(m1, mem, old(b) - {ptr}, old(b) - {ptr, np});
      PayloadsTwice(old(mem), m1, mem, old(b) - {ptr, np});
    }

    /** `brealloc`: a block that must grow moves, and takes its payload along. */
    method Brealloc(ptr: int, size: nat, answer: Option<int>) returns (p: int)
      requires Valid() && size < WORD_LIMIT && Grants(answer, BlockBytes(size) / 8)
      requires answer.Some? && NoneFits(b, BlockBytes(size) / 8) && Outgrown(b, ptr, size) ==> Mappable(size)
      requires ptr != 0 ==> Live(b, ptr) && (size <= MAX_ROOM || 8 * b[ptr].size == 32)
      modifies this
      ensures Valid() && SameElse(old(b), b, {ptr, p}) && PayloadsKept(old(mem), mem, old(b) - {ptr})
      ensures p == 0 <==>
        size == 0 || (answer.None? && NoneFits(old(b), BlockBytes(size) / 8) && Outgrown(old(b), ptr, size))
      ensures p == 0 && size == 0 ==> !Live(b, ptr)
      ensures p == 0 && size > 0 ==> SameElse(old(b), b, {}) && PayloadsKept(old(mem), mem, old(b))
      ensures p != 0 ==> Live(b, p) && (size <= MAX_ROOM ==> size <= 8 * b[p].size - 16)
      ensures p != 0 && !Outgrown(old(b), ptr, size) ==> p == ptr && mem == old(mem) && b == old(b)
      ensures p != 0 && Outgrown(old(b), ptr, size) ==> !Live(old(b), p) && !Live(b, ptr)
      ensures p != 0 && ptr != 0 ==> forall i :: 0 <= i < old(b)[ptr].size - 2 ==>
        Word(mem, p, i) == Word(old(mem), ptr, i)
    {
      hide Good, PayloadsKept, Counted, Covers, NoFreePair, SameElse, NoneFits, BlockBytes, MapBytes, RegionsOk,
           SizeOf, Pack;
      ZeroNotLive(Now());
      if ptr == 0 {
        p := Balloc(size, answer);
        ZeroNotLive(Now());
        PayloadsFewer(old(mem), mem, old(b), old(b) - {ptr});
        ElseWider(old(b), b, if p == 0 then {} else {p}, {ptr, p});
        return;
      }
      if size == 0 {
        Bfree(ptr);
        ElseWider(old(b), b, {ptr}, {ptr, 0});
        return 0;
      }
      TagParts(Now(), {}, ptr);
      PayloadMapped(Now(), {}, {}, ptr);
      var oldPayload := 8 * SizeOf(mem[ptr - 1]) - 16;
      if size <= oldPayload {
        SameElseSelf(b, {ptr, ptr});
        KeptSelf(mem, b - {ptr});
        return ptr;
      }
      CopyFits(size, oldPayload);
      p := Balloc(size, answer);
      PayloadsFewer(old(mem), mem, old(b), old(b) - {ptr});
      if p == 0 {
        ElseWider(old(b), b, {}, {ptr, p});
        return;
      }
      ghost var m1, b1 := mem, b;
      StaysLive(old(b), b, {p}, ptr);
      forall i: nat | i < old(b)[ptr].size - 2 ensures Word(m1, ptr, i) == Word(old(mem), ptr, i) {
        PayloadMappedAt(old(Now()), ptr, i);
        WordKept(old(mem), m1, old(b), ptr, i);
      }
      Move(ptr, p, oldPayload / 8);
      StaysLive(b1, b, {ptr}, p);
      ElseTwice(old(b), b1, b, {p}, {ptr});
      assert {ptr} + {p} == {ptr, p};
      PayloadsMoved(old(mem), m1, mem, old(b), b1, ptr, p);
    }

    /** `balloc_stats_get`: the counters account for every byte mapped. */
    method GetStats() returns (st: Stats)
      requires Valid()
      ensures st == stats && Counted(st, b)
      ensures st.heapBytes == st.bytesInUse + st.bytesFree + 16 * (st.blocksInUse + st.blocksFree) + 32 * st.chunks
    {
      HeapConserved(stats, b, regions);
      return stats;
    }

    // -------------------------------------------------------------- self-check

    /** What the self-check needs of the heap: that its walks and lists come to an end. */
    ghost predicate Walks(ws: seq<seq<int>>)
      reads this
    {
      Readable(mem, heads, regions, ws, lists)
    }

    /** `on_free_list`. */
    method OnFreeList(bp: int, ghost ws: seq<seq<int>>) returns (found: bool)
      requires Walks(ws) && bp != 0
      ensures found <==> Listed(lists, bp)
    {
      hide Listed, Walk;
      var c: nat := 0;
      while c < NCLASS
        invariant c <= NCLASS
        invariant forall d :: 0 <= d < c ==> bp !in lists[d]
      {
        var n := heads[c];
        ghost var i: nat := 0;
        assert Chained(mem, heads[c], lists[c]);
        while n != 0
          invariant i <= |lists[c]| && n == At(lists[c], i)
          invariant bp !in lists[c][..i]
          decreases |lists[c]| - i
        {
          if n == bp {
            ListedHere(lists, c, n);
            return true;
          }
          assert lists[c][..i + 1] == lists[c][..i] + [lists[c][i]];
          n, i := mem[n], i + 1;
        }
        assert lists[c][..i] == lists[c];
        c := c + 1;
      }
      NotListed(lists, bp);
      return false;
    }

    /** `balloc_check`, on any heap it can read through: 0 exactly when nothing is wrong anywhere, and
        otherwise the code of the first thing that is.  A valid arena is such a heap, and sane. */
    method Check(ghost ws: seq<seq<int>>) returns (r: int)
      requires Walks(ws)
      ensures r == 0 <==> Sane(mem, ws, lists)
      ensures -5 <= r <= -1 ==> FirstFound(mem, lists, ws, r)
      ensures r < -5 ==>
        r == -6 && !ListsFree(mem, lists) && forall k :: 0 <= k < |ws| ==> AllRight(mem, lists, ws[k], 0)
      ensures r <= 0
    {
      hide Listed, Walk, AllRight, Finds, UsedOf;
      var k: nat := 0;
      while k < |regions|
        invariant k <= |regions| && forall j :: 0 <= j < k ==> AllRight(mem, lists, ws[j], 0)
      {
        var code := CheckChunk(k, ws);
        if code != 0 {
          FaultUnsane(mem, ws, lists, k, code);
          return code;
        }
        k := k + 1;
      }
      var c: nat := 0;
      while c < NCLASS
        invariant c <= NCLASS
        invariant forall d, j :: 0 <= d < c && 0 <= j < |lists[d]| ==>
          lists[d][j] - 1 in mem && !UsedOf(mem[lists[d][j] - 1])
      {
        var n := heads[c];
        ghost var i: nat := 0;
        assert Chained(mem, heads[c], lists[c]);
        while n != 0
          invariant i <= |lists[c]| && n == At(lists[c], i)
          invariant forall j :: 0 <= j < i ==> lists[c][j] - 1 in mem && !UsedOf(mem[lists[c][j] - 1])
          decreases |lists[c]| - i
        {
          if UsedOf(mem[n - 1]) { return -6; }
          n, i := mem[n], i + 1;
        }
        c := c + 1;
      }
      return 0;
    }

    /** The walk of `balloc_check` over one chunk. */
    method CheckChunk(k: nat, ghost ws: seq<seq<int>>) returns (r: int)
      requires Walks(ws) && k < |regions|
      ensures if r == 0 then AllRight(mem, lists, ws[k], 0) else Finds(mem, lists, ws[k], r)
    {
      hide Listed, SizeOf, UsedOf, Chained, Walk, Right, FirstFault;
      ghost var w, i: nat := ws[k], 0;
      assert Walk(mem, w, First(regions[k]));
      var first := AlignUp(8 * (regions[k].base + 2 + 1 + 1), 16) / 8;
      var bp, prev := first, 0;
      WalkAt(mem, w, first, 0);
      while SizeOf(mem[bp - 1]) > 0
        invariant i < |w| && bp == w[i] && bp - 1 in mem && prev == Before(w, 0, i) && (prev != 0 ==> prev - 1 in mem)
        invariant SizeOf(mem[bp - 1]) > 0 <==> i < |w| - 1
        invariant forall j :: 0 <= j < i ==> Right(mem, lists, Before(w, 0, j), w[j])
        decreases |w| - i
      {
        WalkAt(mem, w, first, i);
        WalkAt(mem, w, first, i + 1);
        var code := CheckBlock(bp, prev, ws);
        if code != 0 { return code; }
        prev := bp;
        bp := bp + SizeOf(mem[bp - 1]);
        i := i + 1;
      }
      return 0;
    }

    /** What `balloc_check` asks of one block. */
    method CheckBlock(bp: int, prev: int, ghost ws: seq<seq<int>>) returns (r: int)
      requires Walks(ws) && bp > 0 && bp - 1 in mem && bp + SizeOf(mem[bp - 1]) - 2 in mem
      requires prev != 0 ==> prev - 1 in mem
      ensures if r == 0 then Right(mem, lists, prev, bp) else FirstFault(mem, lists, prev, bp, r)
    {
      hide Listed, SizeOf, UsedOf, Readable;
      if bp % 2 != 0 { return -1; }
      var size := SizeOf(mem[bp - 1]);
      if mem[bp - 1] != mem[bp + size - 2] { return -2; }
      if size < MIN_BLOCK { return -3; }
      if !UsedOf(mem[bp - 1]) {
        var on := OnFreeList(bp, ws);
        if !on { return -4; }
        if prev != 0 && !UsedOf(mem[prev - 1]) { return -5; }
      }
      return 0;
    }
  }

  /** In a valid arena the self-check gets through, meets every block and finds nothing wrong. */
  lemma ValidIsSane(a: Arena) returns (ws: seq<seq<int>>)
    requires a.Valid()
    ensures a.Walks(ws) && Sane(a.mem, ws, a.lists) && forall p :: p in a.b ==> Visits(ws, p)
  {
    ws := SoundIsSane(a.Now());
  }

  // ---------------------------------------------------------------- coalescing

  lemma NextFree(b: Blocks, mem: Memory, nb: int)
    requires nb - 1 in mem && mem[nb - 1] == if nb in b then Pack(b[nb].size, b[nb].used) else Pack(0, true)
    ensures UsedOf(mem[nb - 1]) <==> (nb in b ==> b[nb].used)
  {
    if nb in b { PackParts(b[nb].size, b[nb].used); } else { PackParts(0, true); }
  }

  lemma PrevFree(b: Blocks, pb: int, bp: int, prevAlloc: bool)
    requires prevAlloc ==> forall w :: w in b && w + b[w].size == bp ==> b[w].used
    ensures prevAlloc ==> PrevUsed(b, bp)
  {}

  lemma Settled(b: Blocks, bp: int)
    requires bp in b && NoFreePair(b, {bp}) && PrevUsed(b, bp) && (bp + b[bp].size in b ==> b[bp + b[bp].size].used)
    ensures NoFreePair(b, {}) && SameLive(b, b)
  {
    CloseNoPair(b, bp);
  }

  lemma KeptSelf(mem: Memory, b: Blocks)
    ensures PayloadsKept(mem, mem, b)
  {}

  /** Tags of a block that is gone need not be right. */
  lemma OpenStale(h: Heap, open: set<int>, out: set<int>, p: int)
    requires Good(h, open, out) && p !in h.b
    ensures Good(h, open - {p}, out)
  {
    hide Laid, ListsOk, FiledRight, FiledAll, TagOk, Mapped, FrameOk;
  }

  /** Three free blocks in a row become one. */
  lemma FuseBoth(h: Heap, pb: int, bp: int, nb: int) returns (g: Blocks)
    requires Good(h, {}, {bp} + {pb} + {nb}) && NoFreePair(h.b, {bp}) && Covers(h.b, h.rs)
    requires pb in h.b && bp in h.b && nb in h.b && !h.b[pb].used && !h.b[bp].used && !h.b[nb].used
    requires pb + h.b[pb].size == bp && bp + h.b[bp].size == nb
    ensures g - {pb} == h.b - ({bp} + {pb} + {nb})
    ensures pb in g && g[pb] == Blk(h.b[pb].size + h.b[bp].size + h.b[nb].size, false)
    ensures Good(h.(b := g), {pb}, {pb}) && NoFreePair(g, {pb}) && PrevUsed(g, pb) && NextUsed(g, pb)
    ensures SameLive(h.b, g) && Covers(g, h.rs)
  {
    hide Good, Laid, Covers, NoFreePair, SameLive, PrevUsed, NextUsed;
    var out := {bp} + {pb} + {nb};
    GoodSized(h, {}, out);
    ProperSize(h.b, h.rs, pb);
    ProperSize(h.b, h.rs, bp);
    ProperSize(h.b, h.rs, nb);
    var f := Fused(h.b, bp);
    FusedGood(h, {}, out, bp);
    FusedNoPair(h.b, bp, bp);
    SettledNext(h.b, h.rs, bp);
    FusedSameLive(h.b, bp);
    CoversFused(h.b, h.rs, bp);
    var h1 := h.(b := f);
    assert {} + {bp} == {bp} && out - {nb} == {bp} + {pb};
    GoodSized(h1, {bp}, {bp} + {pb});
    FusedGood(h1, {bp}, {bp} + {pb}, pb);
    FusedNoPair(f, pb, bp);
    SettledPrev(f, h.rs, pb);
    FusedAround(f, h.rs, pb);
    FusedSameLive(f, pb);
    g := Fused(f, pb);
    SameLiveTwice(h.b, f, g);
    CoversFused(f, h.rs, pb);
    OpenStale(h.(b := g), {bp} + {pb}, {bp} + {pb} - {bp}, bp);
    assert {bp} + {pb} - {bp} == {pb};
  }

  // ---------------------------------------------------------------- growing, finding

  lemma CountedMapped(st: Stats, st': Stats, b: Blocks, r: Region)
    requires Counted(st, b) && Start(r) !in b
    requires st' == st.(chunks := st'.chunks, heapBytes := st'.heapBytes)
    ensures Counted(Plus(st', Blk(r.total - 4, false)), Grown(b, r))
  {
    assert Counted(st', b);
    hide Counted;
    CountedPlus(st', b, Start(r), Blk(r.total - 4, false));
  }

  lemma GrownOut(b: Blocks, r: Region)
    ensures Start(r) in Grown(b, r) && Grown(b, r)[Start(r)] == Blk(r.total - 4, false)
  {}

  lemma SameLiveSelf(b: Blocks)
    ensures SameLive(b, b)
  {}

  lemma SameElseSelf(b: Blocks, ps: set<int>)
    ensures SameElse(b, b, ps)
  {}

  lemma SameIsElse(b: Blocks, b': Blocks)
    requires SameLive(b, b')
    ensures SameElse(b, b', {})
  {}

  lemma ElseWider(b: Blocks, b': Blocks, ps: set<int>, qs: set<int>)
    requires SameElse(b, b', ps) && ps <= qs
    ensures SameElse(b, b', qs)
  {}

  lemma ElseTwice(b: Blocks, b': Blocks, b'': Blocks, ps: set<int>, qs: set<int>)
    requires SameElse(b, b', ps) && SameElse(b', b'', qs)
    ensures SameElse(b, b'', qs + ps)
  {}

  lemma StaysLive(b: Blocks, b': Blocks, ps: set<int>, p: int)
    requires SameElse(b, b', ps) && Live(b, p) && p !in ps
    ensures Live(b', p) && b'[p] == b[p]
  {}

  /** Node `i` of a class list, as the memory shows it. */
  lemma NodeAt(h: Heap, c: nat, i: nat)
    requires Good(h, {}, {}) && c < NCLASS && |h.lists| == |h.heads| == NCLASS && i <= |h.lists[c]|
    ensures At(h.lists[c], i) == 0 <==> i == |h.lists[c]|
    ensures i == 0 ==> h.heads[c] == At(h.lists[c], 0)
    ensures i < |h.lists[c]| ==>
      var n := h.lists[c][i];
      && At(h.lists[c], i) == n && n in h.mem && h.mem[n] == At(h.lists[c], i + 1) && n in h.b && !h.b[n].used
      && n - 1 in h.mem && SizeOf(h.mem[n - 1]) == h.b[n].size && !UsedOf(h.mem[n - 1])
  {
    hide Good, ClassOf, SizeOf, UsedOf;
    HeadOf(h, {}, {}, c);
    if i < |h.lists[c]| {
      NodeOf(h, {}, {}, c, i);
      ListedIsFree(h, {}, {}, c, h.lists[c][i]);
      TagParts(h, {}, h.lists[c][i]);
    }
  }

  lemma FitFound(b: Blocks, n: int, size: int)
    requires n in b && !b[n].used && b[n].size >= size
    ensures !NoneFits(b, size)
  {}

  lemma AllSmallNone(b: Blocks, l: seq<int>, size: int)
    ensures AllSmall(b, l, 0, size)
  {}

  lemma AllSmallOneMore(b: Blocks, l: seq<int>, i: nat, size: int)
    requires i < |l| && AllSmall(b, l, i, size) && l[i] in b && b[l[i]].size < size
    ensures AllSmall(b, l, i + 1, size)
  {}

  lemma NotLive(b: Blocks, b': Blocks, p: int)
    requires SameLive(b, b') && p in b' && !b'[p].used
    ensures !Live(b, p)
  {}

  lemma BlockWords(size: nat)
    requires BlockBytes(size) % 16 == 0 && BlockBytes(size) >= 32
    ensures var w := BlockBytes(size) / 8; w % 2 == 0 && w >= 4 && 8 * w == BlockBytes(size)
  {
    hide BlockBytes;
  }

  // ---------------------------------------------------------------- payloads

  lemma Aligned(h: Heap, p: int)
    requires Good(h, {}, {}) && p in h.b
    ensures 8 * p % 16 == 0
  {
    hide Good, Laid;
    GoodSized(h, {}, {});
    ProperSize(h.b, h.rs, p);
  }

  lemma PayloadsElse(m: Memory, m': Memory, b: Blocks, b': Blocks, p: int)
    requires SameElse(b, b', {p}) && !Live(b, p) && PayloadsKept(m, m', b')
    ensures PayloadsKept(m, m', b)
  {}

  lemma PayloadsFreed(m: Memory, m': Memory, b: Blocks, p: int)
    requires p in b && PayloadsKept(m, m', WithUse(b, p, false))
    ensures PayloadsKept(m, m', b - {p})
  {
    PayloadsFewer(m, m', WithUse(b, p, false), b - {p});
  }

  lemma PayloadsFewer(m: Memory, m': Memory, b: Blocks, b': Blocks)
    requires PayloadsKept(m, m', b) && forall p :: p in b' ==> p in b && b'[p] == b[p]
    ensures PayloadsKept(m, m', b')
  {}

  lemma PayloadsMoved(m: Memory, m1: Memory, m2: Memory, b: Blocks, b1: Blocks, ptr: int, np: int)
    requires SameElse(b, b1, {np}) && !Live(b, np) && PayloadsKept(m, m1, b - {ptr}) &&
      PayloadsKept(m1, m2, b1 - {ptr, np})
    ensures PayloadsKept(m, m2, b - {ptr})
  {
    forall p, a | p in b - {ptr} && b[p].used && InPayload(p, b[p], a) && a in m ensures a in m2 && m2[a] == m[a] {
      assert InPayload(p, (b - {ptr})[p], a);
      assert Live(b, p) && b1[p] == b[p];
      assert InPayload(p, (b1 - {ptr, np})[p], a);
    }
  }

  lemma StillFree(b: Blocks, b': Blocks, p: int)
    requires SameLive(b, b') && p in b && !b[p].used
    ensures !Live(b', p)
  {}

  lemma WordKept(m: Memory, m': Memory, b: Blocks, p: int, i: nat)
    requires PayloadsKept(m, m', b) && Live(b, p) && i < b[p].size - 2 && p + i in m
    ensures p + i in m' && Word(m', p, i) == Word(m, p, i)
  {
    assert InPayload(p, b[p], p + i);
  }

  lemma PayloadMappedAt(h: Heap, p: int, i: nat)
    requires Good(h, {}, {}) && p in h.b && i < h.b[p].size - 2
    ensures p + i in h.mem
  {
    hide Good;
    PayloadMapped(h, {}, {}, p);
    assert InPayload(p, h.b[p], p + i);
  }

  lemma ZeroNotLive(h: Heap)
    requires Good(h, {}, {})
    ensures 0 !in h.b
  {
    hide Good, Laid;
    GoodSized(h, {}, {});
    if 0 in h.b { ProperSize(h.b, h.rs, 0); }
  }

  /** There is no block yet, or it is too small. */
  ghost predicate Outgrown(b: Blocks, ptr: int, size: int) {
    ptr in b ==> size > 8 * b[ptr].size - 16
  }

  // ---------------------------------------------------------------- the self-check

  lemma ListedHere(lists: seq<seq<int>>, c: nat, n: int)
    requires c < |lists| && n in lists[c]
    ensures Listed(lists, n)
  {}

  lemma NotListed(lists: seq<seq<int>>, n: int)
    requires forall c :: 0 <= c < |lists| ==> n !in lists[c]
    ensures !Listed(lists, n)
  {}
}
