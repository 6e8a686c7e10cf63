/** Freeing, coalescing, splitting and growing as changes of the heap value, and what boundary tags
    tell about neighbours. */
module AllocSteps {
  import opened AllocLists
  import opened AllocLayout
  import opened AllocMemory
  import opened AllocHeap

  // ---------------------------------------------------------------- reading tags

  lemma TagOf(h: Heap, open: set<int>, out: set<int>, p: int)
    requires Good(h, open, out) && p in h.b && p !in open
    ensures TagOk(h.mem, p, h.b[p])
  {
    hide Laid, ListsOk, FiledRight, FiledAll, TagOk, FrameOk, Mapped;
  }

  lemma FrameOf(h: Heap, open: set<int>, out: set<int>, i: nat)
    requires Good(h, open, out) && i < |h.rs|
    ensures FrameOk(h.mem, h.rs[i])
  {
    hide Laid, ListsOk, FiledRight, FiledAll, TagOk, FrameOk, Mapped;
  }

  /** The word behind a block is the tag of its neighbour, or the epilogue, which counts as used. */
  lemma NextTag(h: Heap, open: set<int>, out: set<int>, p: int)
    requires Good(h, open, out) && p in h.b && p + h.b[p].size !in open
    ensures var q := p + h.b[p].size;
      q - 1 in h.mem && h.mem[q - 1] == if q in h.b then Pack(h.b[q].size, h.b[q].used) else Pack(0, true)
  {
    hide Good, Laid, IsEnd;
    GoodSized(h, open, out);
    var q := p + h.b[p].size;
    NextOf(h.b, h.rs, p);
    if q in h.b {
      TagOf(h, open, out, q);
    } else {
      EndTag(h, open, out, q);
    }
  }

  lemma EndTag(h: Heap, open: set<int>, out: set<int>, q: int)
    requires Good(h, open, out) && IsEnd(h.rs, q)
    ensures q - 1 in h.mem && h.mem[q - 1] == Pack(0, true)
  {
    hide Good;
    var i :| 0 <= i < |h.rs| && End(h.rs[i]) == q;
    FrameOf(h, open, out, i);
  }

  /** What the word before a header leads to: through the prologue back to itself, or to the block
      before. */
  lemma PrevTag(h: Heap, out: set<int>, p: int)
    requires Good(h, {}, out) && p in h.b
    ensures p - 2 in h.mem
    ensures var pb := p - SizeOf(h.mem[p - 2]);
      && pb - 1 in h.mem && pb + SizeOf(h.mem[pb - 1]) - 2 == p - 2
      && (UsedOf(h.mem[p - 2]) ==> forall w :: w in h.b && w + h.b[w].size == p ==> h.b[w].used)
      && (!UsedOf(h.mem[p - 2]) ==> pb in h.b && !h.b[pb].used && pb + h.b[pb].size == p)
  {
    hide Good, Laid, HasPrev, IsStart, Pack, SizeOf, UsedOf, TagOk;
    GoodSized(h, {}, out);
    PrevOf(h.b, h.rs, p);
    forall w | w in h.b && w + h.b[w].size == p
      ensures p - 2 in h.mem && SizeOf(h.mem[p - 2]) == h.b[w].size && UsedOf(h.mem[p - 2]) == h.b[w].used
      ensures w - 1 in h.mem && SizeOf(h.mem[w - 1]) == h.b[w].size
    {
      TagParts(h, out, w);
    }
    if IsStart(h.rs, p) {
      StartTag(h, out, p);
      PackParts(1, true);
    } else {
      var _ := SomePrev(h.b, p);
    }
  }

  lemma TagParts(h: Heap, out: set<int>, p: int)
    requires Good(h, {}, out) && p in h.b
    ensures p - 1 in h.mem && SizeOf(h.mem[p - 1]) == h.b[p].size && UsedOf(h.mem[p - 1]) == h.b[p].used
    ensures var f := p + h.b[p].size - 2;
      f in h.mem && SizeOf(h.mem[f]) == h.b[p].size && UsedOf(h.mem[f]) == h.b[p].used
  {
    hide Good, Pack, SizeOf, UsedOf;
    TagOf(h, {}, out, p);
    PackParts(h.b[p].size, h.b[p].used);
  }

  lemma SomePrev(b: Blocks, p: int) returns (w: int)
    requires HasPrev(b, p)
    ensures w in b && w + b[w].size == p
  {
    w :| w in b && w + b[w].size == p;
  }

  lemma StartTag(h: Heap, out: set<int>, p: int)
    requires Good(h, {}, out) && IsStart(h.rs, p)
    ensures p - 2 in h.mem && h.mem[p - 2] == Pack(1, true)
  {
    hide Good;
    var i :| 0 <= i < |h.rs| && Start(h.rs[i]) == p;
    FrameOf(h, {}, out, i);
  }

  // ---------------------------------------------------------------- writing tags

  lemma TagsGood(h: Heap, open: set<int>, out: set<int>, p: int)
    requires Good(h, open, out) && p in h.b
    ensures var m := WithTags(h.mem, p, h.b[p].size, h.b[p].used);
      Good(h.(mem := m), open - {p}, out) && PayloadsKept(h.mem, m, h.b)
  {
    hide Laid, Tagged, ListsOk, FiledRight, FiledAll, PayloadsKept;
    var m := WithTags(h.mem, p, h.b[p].size, h.b[p].used);
    TagsWritten(h.mem, h.b, h.rs, open, p);
    forall c, i | 0 <= c < |h.lists| && 0 <= i < |h.lists[c]|
      ensures var n := h.lists[c][i];
        n in m && n + 1 in m && n in h.mem && n + 1 in h.mem && m[n] == h.mem[n] && m[n + 1] == h.mem[n + 1]
    {
      NodeKept(h, open, out, p, c, i);
    }
    ListsElsewhere(h.mem, m, h.heads, h.lists);
  }

  lemma NodeKept(h: Heap, open: set<int>, out: set<int>, p: int, c: nat, i: nat)
    requires Good(h, open, out) && p in h.b && c < |h.lists| && i < |h.lists[c]|
    ensures var m := WithTags(h.mem, p, h.b[p].size, h.b[p].used); var n := h.lists[c][i];
      n in h.mem && n + 1 in h.mem && n in m && n + 1 in m && m[n] == h.mem[n] && m[n + 1] == h.mem[n + 1]
  {
    hide Good, Laid, ClassOf, At;
    GoodSized(h, open, out);
    NodeOf(h, open, out, c, i);
    var n := h.lists[c][i];
    ListedIsFree(h, open, out, c, n);
    ProperSize(h.b, h.rs, p);
    ProperSize(h.b, h.rs, n);
    if n != p { TagWordsOwn(h.b, h.rs, p, n); }
  }

  // ---------------------------------------------------------------- changing blocks

  /** The same blocks, used or free as they may be. */
  ghost predicate SameSizes(b: Blocks, b': Blocks) {
    b'.Keys == b.Keys && forall p :: p in b ==> b'[p].size == b[p].size
  }

  lemma SameSizesLaid(b: Blocks, b': Blocks, rs: seq<Region>)
    requires Laid(b, rs) && SameSizes(b, b')
    ensures Laid(b', rs)
  {
    hide RegionsOk, IsStart, IsEnd, HasPrev, InSome, Tiles;
    forall p | p in b' ensures PlaceAt(b', rs, p) && NextAt(b', rs, p) && PrevAt(b', rs, p) {
      SameSizesAt(b, b', rs, p);
    }
    forall i: nat | i < |rs| ensures Start(rs[i]) in b' { StartIn(b, rs, i); }
    MakeTiles(b', rs);
  }

  lemma SameSizesAt(b: Blocks, b': Blocks, rs: seq<Region>, p: int)
    requires Laid(b, rs) && SameSizes(b, b') && p in b
    ensures PlaceAt(b', rs, p) && NextAt(b', rs, p) && PrevAt(b', rs, p)
  {
    hide Tiles, NoOverlap, RegionsOk, IsStart, IsEnd;
    var i := RegionOf(b, rs, p);
    assert Inside(rs[i], p, b'[p]);
    NextOf(b, rs, p);
    PrevOf(b, rs, p);
    if !IsStart(rs, p) {
      var w := SomePrev(b, p);
      assert w in b' && w + b'[w].size == p;
    }
  }

  function WithUse(b: Blocks, p: int, used: bool): Blocks
    requires p in b
  {
    b[p := Blk(b[p].size, used)]
  }

  lemma RetaggedTagged(mem: Memory, b: Blocks, rs: seq<Region>, open: set<int>, p: int, used: bool)
    requires Tagged(mem, b, rs, open) && p in b
    ensures Tagged(mem, WithUse(b, p, used), rs, open + {p})
  {
    hide TagOk, FrameOk, Mapped;
  }

  /** A block in use becomes free, listed nowhere yet. */
  lemma FreedGood(h: Heap, p: int)
    requires Good(h, {}, {}) && p in h.b && h.b[p].used
    ensures Good(h.(b := WithUse(h.b, p, false)), {p}, {p})
  {
    hide Laid, Tagged, ListsOk, ClassOf;
    var b' := WithUse(h.b, p, false);
    SameSizesLaid(h.b, b', h.rs);
    RetaggedTagged(h.mem, h.b, h.rs, {}, p, false);
    assert {} + {p} == {p};
    assert forall c, n :: 0 <= c < NCLASS && n in h.lists[c] ==> n != p;
  }

  /** An unlisted free block becomes one in use. */
  lemma TakenGood(h: Heap, p: int)
    requires Good(h, {}, {p}) && p in h.b && !h.b[p].used
    ensures Good(h.(b := WithUse(h.b, p, true)), {p}, {})
  {
    hide Laid, Tagged, ListsOk, ClassOf;
    var b' := WithUse(h.b, p, true);
    SameSizesLaid(h.b, b', h.rs);
    RetaggedTagged(h.mem, h.b, h.rs, {}, p, true);
    assert {} + {p} == {p};
    assert !Listed(h.lists, p);
    assert forall c, n :: 0 <= c < NCLASS && n in h.lists[c] ==> n != p;
  }

  lemma FusedTagged(mem: Memory, b: Blocks, rs: seq<Region>, open: set<int>, p: int)
    requires Tagged(mem, b, rs, open) && p in b && p + b[p].size in b
    ensures Tagged(mem, Fused(b, p), rs, open + {p})
  {
    hide TagOk, FrameOk;
    var f, q := Fused(b, p), p + b[p].size;
    assert Mapped(mem, p, b[p].size) && Mapped(mem, q, b[q].size);
    assert Mapped(mem, p, f[p].size);
    hide Mapped;
  }

  /** Two unlisted free neighbours become one. */
  lemma FusedGood(h: Heap, open: set<int>, out: set<int>, p: int)
    requires Good(h, open, out) && p in h.b && p + h.b[p].size in h.b && p in out && p + h.b[p].size in out
    requires !h.b[p].used && !h.b[p + h.b[p].size].used
    ensures Good(h.(b := Fused(h.b, p)), open + {p}, out - {p + h.b[p].size})
  {
    hide Laid, Tagged, ListsOk, ClassOf, FiledRight, FiledAll, Fused;
    ProperSize(h.b, h.rs, p);
    FusedLaid(h.b, h.rs, p);
    FusedTagged(h.mem, h.b, h.rs, open, p);
    FusedFiled(h.b, h.lists, out, p);
  }

  lemma FusedFiled(b: Blocks, lists: seq<seq<int>>, out: set<int>, p: int)
    requires FiledRight(b, lists) && FiledAll(b, lists, out) && p in b && p + b[p].size in b
    requires p in out && p + b[p].size in out && b[p].size > 0
    ensures FiledRight(Fused(b, p), lists) && FiledAll(Fused(b, p), lists, out - {p + b[p].size})
  {
    hide ClassOf;
    var q := p + b[p].size;
    assert !Listed(lists, p) && !Listed(lists, q);
    assert forall c, n :: 0 <= c < NCLASS && n in lists[c] ==> n != p && n != q;
  }

  lemma PartedTagged(mem: Memory, b: Blocks, rs: seq<Region>, p: int, size: int)
    requires Tagged(mem, b, rs, {}) && Partable(b, p, size)
    ensures Tagged(mem, Parted(b, p, size), rs, {p, p + size})
  {
    hide TagOk, FrameOk;
    var f, q := Parted(b, p, size), p + size;
    assert Mapped(mem, p, b[p].size);
    assert Mapped(mem, p, f[p].size) && Mapped(mem, q, f[q].size);
    hide Mapped;
  }

  /** An unlisted free block is split: its front taken, the rest free and unlisted. */
  lemma PartedGood(h: Heap, p: int, size: int)
    requires Good(h, {}, {p}) && Partable(h.b, p, size) && !h.b[p].used
    ensures p + size !in h.b && Good(h.(b := Parted(h.b, p, size)), {p, p + size}, {p + size})
  {
    hide Laid, Tagged, ListsOk, ClassOf;
    PartedLaid(h.b, h.rs, p, size);
    PartedTagged(h.mem, h.b, h.rs, p, size);
    var q := p + size;
    assert !Listed(h.lists, p);
    assert forall c, n :: 0 <= c < NCLASS && n in h.lists[c] ==> n != p && n != q;
  }
}
