/** Blocks in use, as the callers of `C-Allocator/src/balloc.c` see them: what taking and freeing
    a block, and writing to a payload, leave alone. */
module AllocLive {
  import opened AllocLists
  import opened AllocLayout
  import opened AllocMemory
  import opened AllocHeap
  import opened AllocSteps
  import opened AllocStats
  import opened AllocNeighbours

  ghost predicate Live(b: Blocks, p: int) {
    p in b && b[p].used
  }

  /** The blocks in use are the same, each of its size, save perhaps those in `ps`. */
  ghost predicate SameElse(b: Blocks, b': Blocks, ps: set<int>) {
    forall p :: p !in ps && (Live(b, p) || Live(b', p)) ==> p in b && p in b' && b'[p] == b[p]
  }

  lemma SameLiveElse(b: Blocks, b': Blocks, b'': Blocks, ps: set<int>)
    requires SameElse(b, b', ps) && SameLive(b', b'')
    ensures SameElse(b, b'', ps)
  {}

  lemma SameElseSame(b: Blocks, b': Blocks, b'': Blocks, ps: set<int>)
    requires SameLive(b, b') && SameElse(b', b'', ps)
    ensures SameElse(b, b'', ps)
  {}

  // ---------------------------------------------------------------- splitting and taking

  lemma PartedNoPair(b: Blocks, rs: seq<Region>, p: int, size: int)
    requires Laid(b, rs) && Partable(b, p, size) && !b[p].used && NoFreePair(b, {})
    ensures NoFreePair(Parted(b, p, size), {})
  {
    hide Tiles, RegionsOk;
    var f := Parted(b, p, size);
    assert Guarded(b, {}, p);
    forall x ensures Guarded(f, {}, x) {
      assert Guarded(b, {}, x);
      if x in b && x != p { PartedAround(b, rs, p, size, x); }
    }
  }

  /** No other block ends where the split is. */
  lemma PartedAround(b: Blocks, rs: seq<Region>, p: int, size: int, x: int)
    requires Laid(b, rs) && Partable(b, p, size) && x in b && x != p
    ensures x != p + size && x + b[x].size != p + size
  {
    hide Tiles, RegionsOk;
    var _ := RegionOf(b, rs, p);
    var _ := RegionOf(b, rs, x);
    if x < p { Disjoint(b, x, p); } else { Disjoint(b, p, x); }
  }

  lemma PartedElse(b: Blocks, p: int, size: int)
    requires p in b && !b[p].used && p + size !in b && size != 0
    ensures SameElse(b, Parted(b, p, size), {p})
  {}

  lemma TakenNoPair(b: Blocks, p: int)
    requires p in b && NoFreePair(b, {})
    ensures NoFreePair(WithUse(b, p, true), {}) && SameElse(b, WithUse(b, p, true), {p})
  {
    forall x ensures Guarded(WithUse(b, p, true), {}, x) { assert Guarded(b, {}, x); }
  }

  lemma FreedNoPair(b: Blocks, p: int)
    requires p in b && NoFreePair(b, {})
    ensures NoFreePair(WithUse(b, p, false), {p}) && SameElse(b, WithUse(b, p, false), {p})
  {
    forall x ensures Guarded(WithUse(b, p, false), {p}, x) { assert Guarded(b, {}, x); }
  }

  lemma CountedTaken(st: Stats, b: Blocks, p: int, k: Blk)
    requires p in b && Counted(st, b - {p})
    ensures Counted(Plus(st, k), b[p := k])
  {
    hide Counted;
    CountedPlus(st, b - {p}, p, k);
    assert (b - {p})[p := k] == b[p := k];
  }

  lemma CountedParted(st: Stats, b: Blocks, p: int, size: int)
    requires Partable(b, p, size) && p + size !in b && Counted(st, b - {p})
    ensures Counted(Plus(Plus(st, Blk(b[p].size - size, false)), Blk(size, true)), Parted(b, p, size))
  {
    hide Counted;
    var q, k := p + size, Blk(b[p].size - size, false);
    CountedPlus(st, b - {p}, q, k);
    CountedPlus(Plus(st, k), (b - {p})[q := k], p, Blk(size, true));
    assert (b - {p})[q := k][p := Blk(size, true)] == Parted(b, p, size);
  }

  // ---------------------------------------------------------------- payloads

  /** Word `i` of the payload at `p`. */
  function Word(mem: Memory, p: int, i: int): int {
    if p + i in mem then mem[p + i] else 0
  }

  lemma PayloadMapped(h: Heap, open: set<int>, out: set<int>, p: int)
    requires Good(h, open, out) && p in h.b
    ensures forall a :: InPayload(p, h.b[p], a) ==> a in h.mem
    ensures h.b[p].size >= 4
  {
    hide Laid, ListsOk, FiledRight, FiledAll, TagOk, FrameOk;
    ProperSize(h.b, h.rs, p);
    assert Mapped(h.mem, p, h.b[p].size);
  }

  /** Only one word of a payload changes. */
  lemma PayloadWritten(h: Heap, p: int, a: int, v: int)
    requires Good(h, {}, {}) && Live(h.b, p) && InPayload(p, h.b[p], a)
    ensures Good(h.(mem := h.mem[a := v]), {}, {})
    ensures PayloadsKept(h.mem, h.mem[a := v], h.b - {p})
  {
    hide Laid, Tagged, ListsOk, FiledRight, FiledAll, PayloadsKept;
    WordTagged(h.mem, h.b, h.rs, p, a, v);
    forall c, i | 0 <= c < |h.lists| && 0 <= i < |h.lists[c]|
      ensures var n := h.lists[c][i]; n in h.mem && n + 1 in h.mem && n != a && n + 1 != a
    {
      WordOffLists(h, p, a, c, i);
    }
    ListsElsewhere(h.mem, h.mem[a := v], h.heads, h.lists);
  }

  lemma WordOffLists(h: Heap, p: int, a: int, c: nat, i: nat)
    requires Good(h, {}, {}) && Live(h.b, p) && InPayload(p, h.b[p], a) && c < |h.lists| && i < |h.lists[c]|
    ensures var n := h.lists[c][i]; n in h.mem && n + 1 in h.mem && n != a && n + 1 != a
  {
    hide Good, Laid, ClassOf, At;
    GoodSized(h, {}, {});
    NodeOf(h, {}, {}, c, i);
    ListedIsFree(h, {}, {}, c, h.lists[c][i]);
    TagWordsOwn(h.b, h.rs, p, h.lists[c][i]);
  }

  lemma WordTagged(mem: Memory, b: Blocks, rs: seq<Region>, p: int, a: int, v: int)
    requires Laid(b, rs) && Tagged(mem, b, rs, {}) && Live(b, p) && InPayload(p, b[p], a)
    ensures Tagged(mem[a := v], b, rs, {}) && PayloadsKept(mem, mem[a := v], b - {p})
  {
    hide Laid;
    forall q | q in b ensures TagOk(mem[a := v], q, b[q]) && (q != p ==> !InPayload(q, b[q], a)) {
      if q != p { TagWordsOwn(b, rs, p, q); }
    }
    forall i: nat | i < |rs| ensures FrameOk(mem[a := v], rs[i]) {
      assert FrameOk(mem, rs[i]);
      FrameWordsOwn(b, rs, p, i);
    }
    hide TagOk, FrameOk, InPayload;
  }

  /** Payloads of different blocks share no word, and all lie inside regions. */
  lemma PayloadsDisjoint(h: Heap, p: int, q: int, a: int)
    requires Good(h, {}, {}) && Live(h.b, p) && Live(h.b, q) && p != q && InPayload(p, h.b[p], a)
    ensures !InPayload(q, h.b[q], a)
    ensures exists i :: 0 <= i < |h.rs| && Start(h.rs[i]) <= a < End(h.rs[i])
  {
    hide Tagged, ListsOk, FiledRight, FiledAll, Tiles, NoOverlap, RegionsOk;
    TagWordsOwn(h.b, h.rs, p, q);
    var i := RegionOf(h.b, h.rs, p);
    assert Start(h.rs[i]) <= a < End(h.rs[i]);
  }
}
