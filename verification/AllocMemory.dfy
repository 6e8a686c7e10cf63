/** The words of the heap in `C-Allocator/src/balloc.c`: boundary tags, list links and payloads, and
    which writes disturb which of them. */
module AllocMemory {
  import opened AllocLists
  import opened AllocLayout

  /** Both tags of a block. */
  ghost predicate TagOk(mem: Memory, p: int, k: Blk) {
    && p - 1 in mem && mem[p - 1] == Pack(k.size, k.used)
    && p + k.size - 2 in mem && mem[p + k.size - 2] == Pack(k.size, k.used)
  }

  /** The prologue footer says "one word, used", the epilogue header "no words, used". */
  ghost predicate FrameOk(mem: Memory, r: Region) {
    && r.base + 2 in mem && mem[r.base + 2] == Pack(1, true)
    && End(r) - 1 in mem && mem[End(r) - 1] == Pack(0, true)
  }

  ghost predicate Mapped(mem: Memory, p: int, size: int) {
    forall a :: p - 1 <= a < p + size - 1 ==> a in mem
  }

  /** Tags are right, save perhaps those of the blocks in `open`. */
  ghost predicate Tagged(mem: Memory, b: Blocks, rs: seq<Region>, open: set<int>) {
    && (forall p :: p in b && p !in open ==> TagOk(mem, p, b[p]))
    && (forall p :: p in b ==> Mapped(mem, p, b[p].size))
    && (forall i :: 0 <= i < |rs| ==> FrameOk(mem, rs[i]))
  }

  /** `a` lies in the payload of `p`. */
  predicate InPayload(p: int, k: Blk, a: int) {
    p <= a < p + k.size - 2
  }

  /** The payload of every block in use is as it was. */
  ghost predicate PayloadsKept(mem: Memory, mem': Memory, b: Blocks) {
    forall p, a :: p in b && b[p].used && InPayload(p, b[p], a) && a in mem ==> a in mem' && mem'[a] == mem[a]
  }

  lemma PayloadsTwice(m1: Memory, m2: Memory, m3: Memory, b: Blocks)
    requires PayloadsKept(m1, m2, b) && PayloadsKept(m2, m3, b)
    ensures PayloadsKept(m1, m3, b)
  {}

  // ---------------------------------------------------------------- writing tags

  /** The memory with both tags of a block written. */
  function WithTags(mem: Memory, p: int, size: int, used: bool): Memory {
    mem[p - 1 := Pack(size, used)][p + size - 2 := Pack(size, used)]
  }

  /** No tag word of `p` is a word of another block or of a frame, nor in any payload. */
  lemma TagWordsOwn(b: Blocks, rs: seq<Region>, p: int, q: int)
    requires Laid(b, rs) && p in b && q in b && p != q
    ensures q + b[q].size - 1 <= p - 1 || p + b[p].size - 1 <= q - 1
    ensures b[p].size >= 4 && b[q].size >= 4
  {
    hide Tiles, NoOverlap, RegionsOk;
    var _ := RegionOf(b, rs, p);
    var _ := RegionOf(b, rs, q);
    if p < q { Disjoint(b, p, q); } else { Disjoint(b, q, p); }
  }

  lemma FrameWordsOwn(b: Blocks, rs: seq<Region>, p: int, i: nat)
    requires Laid(b, rs) && p in b && i < |rs|
    ensures !(p - 1 <= rs[i].base + 2 < p + b[p].size - 1) && !(p - 1 <= End(rs[i]) - 1 < p + b[p].size - 1)
  {
    hide Tiles, NoOverlap, RegionsOk;
    ClearOfFrames(b, rs, p, i);
    RegionsApart(rs, i, i);
  }

  lemma TagsWritten(mem: Memory, b: Blocks, rs: seq<Region>, open: set<int>, p: int)
    requires Laid(b, rs) && Tagged(mem, b, rs, open) && p in b
    ensures Tagged(WithTags(mem, p, b[p].size, b[p].used), b, rs, open - {p})
    ensures PayloadsKept(mem, WithTags(mem, p, b[p].size, b[p].used), b)
  {
    hide Laid;
    var m := WithTags(mem, p, b[p].size, b[p].used);
    forall q | q in b && q !in open - {p} ensures TagOk(m, q, b[q]) {
      if q != p { TagWordsOwn(b, rs, p, q); }
    }
    forall i: nat | i < |rs| ensures FrameOk(m, rs[i]) {
      FrameWordsOwn(b, rs, p, i);
      ProperSize(b, rs, p);
      assert FrameOk(mem, rs[i]);
    }
    forall q, a | q in b && b[q].used && InPayload(q, b[q], a) && a in mem ensures m[a] == mem[a] {
      if q != p { TagWordsOwn(b, rs, p, q); } else { ProperSize(b, rs, p); }
    }
    hide TagOk, FrameOk, InPayload;
  }

  lemma ProperSize(b: Blocks, rs: seq<Region>, p: int)
    requires Laid(b, rs) && p in b
    ensures b[p].size >= 4 && p % 2 == 0 && b[p].size % 2 == 0 && p > 0
  {
    hide Tiles, NoOverlap, RegionsOk;
    var i := RegionOf(b, rs, p);
    WholePages(rs, i);
  }

  // ---------------------------------------------------------------- writing links

  /** The two memories agree except in the payloads of free blocks. */
  ghost predicate OnlyFreePayloads(mem: Memory, mem': Memory, b: Blocks) {
    && mem.Keys <= mem'.Keys
    && forall a :: a in mem && mem'[a] != mem[a] ==> InFree(b, a)
  }

  ghost predicate InFree(b: Blocks, a: int) {
    exists p :: p in b && !b[p].used && InPayload(p, b[p], a)
  }

  lemma LinksWritten(mem: Memory, mem': Memory, b: Blocks, rs: seq<Region>, open: set<int>)
    requires Laid(b, rs) && Tagged(mem, b, rs, open) && OnlyFreePayloads(mem, mem', b)
    ensures Tagged(mem', b, rs, open) && PayloadsKept(mem, mem', b)
  {
    hide Laid;
    forall q, a | q in b && (a == q - 1 || a == q + b[q].size - 2 || (b[q].used && InPayload(q, b[q], a))) && a in mem
      ensures mem'[a] == mem[a]
    {
      if InFree(b, a) {
        var p :| p in b && !b[p].used && InPayload(p, b[p], a);
        ProperSize(b, rs, p);
        ProperSize(b, rs, q);
        if p != q { TagWordsOwn(b, rs, p, q); }
      }
    }
    forall i: nat | i < |rs| ensures FrameOk(mem', rs[i]) {
      assert FrameOk(mem, rs[i]);
      forall a | a == rs[i].base + 2 || a == End(rs[i]) - 1 ensures !InFree(b, a) {
        if InFree(b, a) {
          var p :| p in b && !b[p].used && InPayload(p, b[p], a);
          FrameWordsOwn(b, rs, p, i);
        }
      }
    }
    forall q | q in b && q !in open ensures TagOk(mem', q, b[q]) {
      assert TagOk(mem, q, b[q]);
    }
    hide TagOk, FrameOk;
  }
}
