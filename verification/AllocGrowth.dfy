/** What a fresh region adds to the heap of `C-Allocator/src/balloc.c`, and how free space is found. */
module AllocGrowth {
  import opened AllocLists
  import opened AllocLayout
  import opened AllocMemory
  import opened AllocHeap
  import opened AllocNeighbours

  /** The words of a region as the operating system hands it out. */
  function Zeroed(r: Region): Memory {
    map a | a in WordsIn(r) :: 0
  }

  function WordsIn(r: Region): set<int> {
    set a | r.base <= a < End(r) && Contains(r, a)
  }

  predicate Contains(r: Region, a: int) {
    r.base <= a < End(r)
  }

  /** The memory once `grow` has framed the region: chunk header, prologue, one free block, epilogue. */
  function Framed(mem: Memory, r: Region, next: int): Memory {
    (mem + Zeroed(r))[r.base + 1 := 8 * r.total][r.base := next]
      [r.base + 2 := Pack(1, true)][r.base + 3 := Pack(r.total - 4, false)]
      [End(r) - 2 := Pack(r.total - 4, false)][End(r) - 1 := Pack(0, true)]
  }

  /** Outside the region nothing changes; inside, the frame and the tags of its block are right. */
  ghost predicate FreshRegion(mem: Memory, m: Memory, r: Region) {
    && (forall a :: a in mem && !(r.base <= a < End(r)) ==> a in m && m[a] == mem[a])
    && Mapped(m, Start(r), r.total - 4)
    && TagOk(m, Start(r), Blk(r.total - 4, false)) && FrameOk(m, r)
  }

  lemma FramedFresh(mem: Memory, r: Region, next: int)
    requires r.total >= PAGE
    ensures FreshRegion(mem, Framed(mem, r, next), r)
  {
    hide Pack;
    var m := Framed(mem, r, next);
    assert Mapped(m, Start(r), r.total - 4);
  }

  lemma GrownTagged(mem: Memory, m: Memory, b: Blocks, rs: seq<Region>, r: Region)
    requires Laid(b, rs) && RegionsOk([r] + rs) && Tagged(mem, b, rs, {}) && FreshRegion(mem, m, r)
    ensures Tagged(m, Grown(b, r), [r] + rs, {})
  {
    hide Laid, RegionsOk;
    forall p | p in b ensures TagOk(m, p, b[p]) && Mapped(m, p, b[p].size) {
      OutsideNew(b, rs, r, p);
    }
    forall i: nat | i < |[r] + rs| ensures FrameOk(m, ([r] + rs)[i]) {
      if i > 0 {
        assert FrameOk(mem, rs[i - 1]);
        RegionsApart([r] + rs, 0, i);
      }
    }
    hide TagOk, Mapped, FrameOk;
  }

  lemma GrownNodes(h: Heap, m: Memory, r: Region)
    requires Good(h, {}, {}) && RegionsOk([r] + h.rs) && FreshRegion(h.mem, m, r)
    ensures ListsOk(m, h.heads, h.lists)
  {
    hide Laid, Tagged, FiledRight, FiledAll, RegionsOk, FreshRegion, Apart;
    GoodSized(h, {}, {});
    forall c, i | 0 <= c < |h.lists| && 0 <= i < |h.lists[c]|
      ensures var n := h.lists[c][i];
        n in m && n + 1 in m && n in h.mem && n + 1 in h.mem && m[n] == h.mem[n] && m[n + 1] == h.mem[n + 1]
    {
      GrownNode(h, m, r, c, i);
    }
    hide ListsOk;
    ListsElsewhere(h.mem, m, h.heads, h.lists);
  }

  lemma GrownNode(h: Heap, m: Memory, r: Region, c: nat, i: nat)
    requires Good(h, {}, {}) && RegionsOk([r] + h.rs) && FreshRegion(h.mem, m, r)
    requires c < |h.lists| && i < |h.lists[c]|
    ensures var n := h.lists[c][i];
      n in m && n + 1 in m && n in h.mem && n + 1 in h.mem && m[n] == h.mem[n] && m[n + 1] == h.mem[n + 1]
  {
    hide Good, Laid, RegionsOk, TagOk, Mapped, FrameOk, ClassOf, At;
    GoodSized(h, {}, {});
    NodeOf(h, {}, {}, c, i);
    var n := h.lists[c][i];
    ListedIsFree(h, {}, {}, c, n);
    OutsideNew(h.b, h.rs, r, n);
  }

  lemma GrownFiled(b: Blocks, lists: seq<seq<int>>, r: Region)
    requires FiledRight(b, lists) && FiledAll(b, lists, {}) && Start(r) !in b
    ensures FiledRight(Grown(b, r), lists) && FiledAll(Grown(b, r), lists, {Start(r)})
  {
    hide ClassOf;
    assert forall c, n :: 0 <= c < NCLASS && n in lists[c] ==> n != Start(r);
  }

  lemma GrownGood(h: Heap, m: Memory, r: Region)
    requires Good(h, {}, {}) && RegionsOk([r] + h.rs) && FreshRegion(h.mem, m, r)
    ensures Start(r) !in h.b
    ensures Good(Heap(m, h.heads, Grown(h.b, r), [r] + h.rs, h.lists), {}, {Start(r)})
    ensures PayloadsKept(h.mem, m, h.b)
  {
    hide Tagged, ListsOk, FiledRight, FiledAll, RegionsOk, FreshRegion;
    GrownLaid(h.b, h.rs, r);
    GrownTagged(h.mem, m, h.b, h.rs, r);
    GrownNodes(h, m, r);
    GrownFiled(h.b, h.lists, r);
    GrownKept(h.mem, m, h.b, h.rs, r);
    hide Laid;
  }

  lemma GrownKept(mem: Memory, m: Memory, b: Blocks, rs: seq<Region>, r: Region)
    requires Laid(b, rs) && RegionsOk([r] + rs) && FreshRegion(mem, m, r)
    ensures PayloadsKept(mem, m, b)
  {
    hide Laid, RegionsOk, TagOk, Mapped, FrameOk;
    forall p | p in b ensures End(r) < p || p + b[p].size <= r.base { OutsideNew(b, rs, r, p); }
  }

  /** The block of a fresh region has no neighbours. */
  lemma GrownNoPair(b: Blocks, rs: seq<Region>, r: Region)
    requires Laid(b, rs) && RegionsOk([r] + rs) && Start(r) !in b && NoFreePair(b, {})
    ensures NoFreePair(Grown(b, r), {}) && SameLive(b, Grown(b, r))
  {
    hide Laid, RegionsOk;
    forall p | p in b ensures b[p].size > 0 && (End(r) < p || p + b[p].size <= r.base) { OutsideNew(b, rs, r, p); }
    assert ([r] + rs)[0] == r;
    RegionsApart([r] + rs, 0, 0);
    forall x ensures Guarded(Grown(b, r), {}, x) {
      assert Guarded(b, {}, x);
    }
  }

  // ---------------------------------------------------------------- where to look

  /** No free block has `size` words. */
  ghost predicate NoneFits(b: Blocks, size: int) {
    forall p :: p in b && !b[p].used ==> b[p].size < size
  }

  /** Every node of these lists is too small. */
  ghost predicate AllSmall(b: Blocks, l: seq<int>, n: nat, size: int) {
    n <= |l| && forall i :: 0 <= i < n ==> l[i] in b && b[l[i]].size < size
  }

  /** A search of the classes from that of `size` up misses nothing. */
  lemma NoneLeft(h: Heap, size: int)
    requires Good(h, {}, {}) && |h.lists| == NCLASS
    requires forall c :: ClassOf(size) <= c < NCLASS ==> AllSmall(h.b, h.lists[c], |h.lists[c]|, size)
    ensures NoneFits(h.b, size)
  {
    hide Laid, Tagged, ListsOk, FiledRight;
    forall p | p in h.b && !h.b[p].used ensures h.b[p].size < size {
      if h.b[p].size >= size { ClassesGrow(size / 4, h.b[p].size / 4, 0); }
      var l := h.lists[ClassOf(h.b[p].size)];
      var i := PlaceOnList(h, {}, {}, p);
      assert AllSmall(h.b, l, |l|, size) ==> h.b[l[i]].size < size;
    }
  }

  lemma PlaceOnList(h: Heap, open: set<int>, out: set<int>, n: int) returns (i: nat)
    requires Good(h, open, out) && n in h.b && !h.b[n].used && n !in out
    ensures |h.heads| == NCLASS && |h.lists| == NCLASS
    ensures var l := h.lists[ClassOf(h.b[n].size)]; i < |l| && l[i] == n
  {
    hide Laid, Tagged, ListsOk, FiledRight, ClassOf;
    GoodSized(h, open, out);
    var l := h.lists[ClassOf(h.b[n].size)];
    i :| 0 <= i < |l| && l[i] == n;
  }
}
