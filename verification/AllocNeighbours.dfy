/** Free neighbours: why merging a block with those around it leaves no two of them side by side. */
module AllocNeighbours {
  import opened AllocLists
  import opened AllocLayout
  import opened AllocMemory
  import opened AllocHeap

  /** The same blocks are in use. */
  ghost predicate SameLive(b: Blocks, b': Blocks) {
    forall p :: (p in b && b[p].used) || (p in b' && b'[p].used) ==> p in b && p in b' && b'[p] == b[p]
  }

  lemma SameLiveTwice(a: Blocks, b: Blocks, c: Blocks)
    requires SameLive(a, b) && SameLive(b, c)
    ensures SameLive(a, c)
  {}

  lemma PayloadsSameLive(m: Memory, m': Memory, b: Blocks, b': Blocks)
    requires SameLive(b, b') && PayloadsKept(m, m', b')
    ensures PayloadsKept(m, m', b)
  {}

  ghost predicate PrevUsed(b: Blocks, p: int) {
    forall w :: w in b && w + b[w].size == p ==> b[w].used
  }

  ghost predicate NextUsed(b: Blocks, p: int) {
    p in b && p + b[p].size in b ==> b[p + b[p].size].used
  }

  lemma CloseNoPair(b: Blocks, p: int)
    requires p in b && NoFreePair(b, {p}) && PrevUsed(b, p) && NextUsed(b, p)
    ensures NoFreePair(b, {})
  {
    forall x ensures Guarded(b, {}, x) {
      assert Guarded(b, {p}, x);
    }
  }

  /** Fusing moves the one unsettled block to the fused one. */
  lemma FusedNoPair(b: Blocks, p: int, z: int)
    requires p in b && p + b[p].size in b && (z == p || z == p + b[p].size) && NoFreePair(b, {z})
    ensures NoFreePair(Fused(b, p), {p})
  {
    forall x ensures Guarded(Fused(b, p), {p}, x) {
      assert Guarded(b, {z}, x);
    }
  }

  /** Before a free block that is settled, only blocks in use. */
  lemma SettledPrev(b: Blocks, rs: seq<Region>, p: int)
    requires Laid(b, rs) && p in b && !b[p].used && p + b[p].size in b && NoFreePair(b, {p + b[p].size})
    ensures PrevUsed(b, p) && PrevUsed(Fused(b, p), p)
  {
    hide Tiles, NoOverlap, RegionsOk;
    var q := p + b[p].size;
    var _ := RegionOf(b, rs, p);
    var _ := RegionOf(b, rs, q);
    forall w | w in b && w + b[w].size == p ensures b[w].used {
      assert Guarded(b, {q}, w);
      var _ := RegionOf(b, rs, w);
    }
  }

  /** And behind it likewise. */
  lemma SettledNext(b: Blocks, rs: seq<Region>, p: int)
    requires Laid(b, rs) && p in b && p + b[p].size in b && !b[p + b[p].size].used && NoFreePair(b, {p})
    ensures NextUsed(Fused(b, p), p)
  {
    hide Tiles, NoOverlap, RegionsOk;
    var q := p + b[p].size;
    var _ := RegionOf(b, rs, p);
    var _ := RegionOf(b, rs, q);
    assert Guarded(b, {p}, q);
  }

  lemma FusedSameLive(b: Blocks, p: int)
    requires p in b && p + b[p].size in b && !b[p].used && !b[p + b[p].size].used
    ensures SameLive(b, Fused(b, p))
  {}

  /** Fusing at `p` changes neither the block before nor the one behind. */
  lemma FusedAround(b: Blocks, rs: seq<Region>, p: int)
    requires Laid(b, rs) && p in b && p + b[p].size in b
    ensures PrevUsed(b, p) ==> PrevUsed(Fused(b, p), p)
    ensures NextUsed(b, p + b[p].size) ==> NextUsed(Fused(b, p), p)
  {
    hide Tiles, NoOverlap, RegionsOk;
    var _ := RegionOf(b, rs, p);
    var _ := RegionOf(b, rs, p + b[p].size);
  }
}
