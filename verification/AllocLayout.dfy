/** How blocks tile the chunks of `C-Allocator/src/balloc.c`, and the boundary tags around them.
    Addresses and sizes count 8-byte words; a tag holds the size in bytes with the flag in bit 0. */
module AllocLayout {

  datatype Blk = Blk(size: int, used: bool)

  /** Blocks by the address of their payload; each has a header word before it and a footer word at
      its end. */
  type Blocks = map<int, Blk>

  /** One region from the operating system, of whole pages. */
  datatype Region = Region(base: int, total: int)

  const MIN_BLOCK := 4
  const PAGE := 512

  // ---------------------------------------------------------------- tags

  function Pack(size: int, used: bool): int {
    8 * size + if used then 1 else 0
  }

  function SizeOf(tag: int): int {
    tag / 8
  }

  predicate UsedOf(tag: int) {
    tag % 2 == 1
  }

  lemma PackParts(size: int, used: bool)
    ensures SizeOf(Pack(size, used)) == size && UsedOf(Pack(size, used)) == used
  {}

  /** The first payload of a region, and the address just past its epilogue header. */
  function Start(r: Region): int {
    r.base + 4
  }

  function End(r: Region): int {
    r.base + r.total
  }

  // ---------------------------------------------------------------- the layout

  ghost predicate Proper(p: int, k: Blk) {
    p % 2 == 0 && k.size % 2 == 0 && k.size >= MIN_BLOCK
  }

  ghost predicate Inside(r: Region, p: int, k: Blk) {
    Start(r) <= p && p + k.size <= End(r)
  }

  ghost predicate IsStart(rs: seq<Region>, x: int) {
    exists i :: 0 <= i < |rs| && Start(rs[i]) == x
  }

  ghost predicate IsEnd(rs: seq<Region>, x: int) {
    exists i :: 0 <= i < |rs| && End(rs[i]) == x
  }

  ghost predicate InSome(rs: seq<Region>, p: int, k: Blk) {
    exists i :: 0 <= i < |rs| && Inside(rs[i], p, k)
  }

  ghost predicate HasPrev(b: Blocks, x: int) {
    exists p :: p in b && p + b[p].size == x
  }

  ghost predicate NoOverlap(b: Blocks) {
    forall p, q :: p in b && q in b && p < q ==> p + b[p].size <= q
  }

  ghost predicate RegionsOk(rs: seq<Region>) {
    && (forall i :: 0 <= i < |rs| ==>
          rs[i].base > 0 && rs[i].base % PAGE == 0 && rs[i].total % PAGE == 0 && rs[i].total >= PAGE)
    && (forall i, j :: 0 <= i < j < |rs| ==> End(rs[i]) <= rs[j].base || End(rs[j]) <= rs[i].base)
  }

  ghost predicate PlaceAt(b: Blocks, rs: seq<Region>, p: int)
    requires p in b
  {
    Proper(p, b[p]) && InSome(rs, p, b[p])
  }

  /** Behind every block comes another, or the epilogue. */
  ghost predicate NextAt(b: Blocks, rs: seq<Region>, p: int)
    requires p in b
  {
    p + b[p].size in b || IsEnd(rs, p + b[p].size)
  }

  /** Before every block comes another, or the prologue. */
  ghost predicate PrevAt(b: Blocks, rs: seq<Region>, p: int) {
    IsStart(rs, p) || HasPrev(b, p)
  }

  ghost predicate Tiles(b: Blocks, rs: seq<Region>) {
    && (forall p {:trigger PlaceAt(b, rs, p)} :: p in b ==> PlaceAt(b, rs, p))
    && (forall p {:trigger NextAt(b, rs, p)} :: p in b ==> NextAt(b, rs, p))
    && (forall p {:trigger PrevAt(b, rs, p)} :: p in b ==> PrevAt(b, rs, p))
    && (forall i :: 0 <= i < |rs| ==> Start(rs[i]) in b)
  }

  ghost predicate Laid(b: Blocks, rs: seq<Region>) {
    RegionsOk(rs) && NoOverlap(b) && Tiles(b, rs)
  }

  /** Walking from `p` by block sizes arrives exactly at `e`. */
  ghost predicate TiledTo(b: Blocks, p: int, e: int)
    decreases e - p
  {
    p == e || (p in b && p < p + b[p].size <= e && TiledTo(b, p + b[p].size, e))
  }

  /** The region a block lies in. */
  lemma RegionOf(b: Blocks, rs: seq<Region>, p: int) returns (i: nat)
    requires Laid(b, rs) && p in b
    ensures i < |rs| && Inside(rs[i], p, b[p]) && Proper(p, b[p])
  {
    hide NextAt, PrevAt, RegionsOk, NoOverlap;
    assert PlaceAt(b, rs, p);
    i :| 0 <= i < |rs| && Inside(rs[i], p, b[p]);
  }

  lemma RegionsApart(rs: seq<Region>, i: nat, j: nat)
    requires RegionsOk(rs) && i < |rs| && j < |rs|
    ensures rs[i].total >= PAGE && rs[j].total >= PAGE && (i == j || End(rs[i]) <= rs[j].base ||
      End(rs[j]) <= rs[i].base)
  {}

  lemma SameRegion(b: Blocks, rs: seq<Region>, p: int, i: nat)
    requires Laid(b, rs) && p in b && i < |rs| && rs[i].base <= p < End(rs[i])
    ensures Inside(rs[i], p, b[p]) && Proper(p, b[p])
  {
    hide Tiles, NoOverlap, RegionsOk;
    var j := RegionOf(b, rs, p);
    RegionsApart(rs, i, j);
  }

  lemma NextOf(b: Blocks, rs: seq<Region>, p: int)
    requires Laid(b, rs) && p in b
    ensures p + b[p].size in b || IsEnd(rs, p + b[p].size)
  {
    hide PrevAt, PlaceAt, IsEnd, NoOverlap, RegionsOk;
    assert NextAt(b, rs, p);
  }

  lemma PrevOf(b: Blocks, rs: seq<Region>, p: int)
    requires Laid(b, rs) && p in b
    ensures IsStart(rs, p) || HasPrev(b, p)
  {
    hide NextAt, PlaceAt, IsStart, HasPrev, NoOverlap, RegionsOk;
    assert PrevAt(b, rs, p);
  }

  lemma StartIn(b: Blocks, rs: seq<Region>, i: nat)
    requires Laid(b, rs) && i < |rs|
    ensures Start(rs[i]) in b
  {
    hide NextAt, PrevAt, PlaceAt, NoOverlap, RegionsOk;
  }

  /** Every chunk is tiled exactly, from its first payload to its epilogue. */
  lemma {:induction false} ChunkTiled(b: Blocks, rs: seq<Region>, i: nat, p: int)
    requires Laid(b, rs) && i < |rs| && (p in b || p == End(rs[i])) && rs[i].base <= p <= End(rs[i])
    ensures TiledTo(b, p, End(rs[i]))
    decreases End(rs[i]) - p
  {
    hide Tiles, NoOverlap, RegionsOk, IsEnd;
    if p < End(rs[i]) {
      SameRegion(b, rs, p, i);
      var q := p + b[p].size;
      NextOf(b, rs, p);
      if q !in b { EndOfThis(rs, i, q); }
      ChunkTiled(b, rs, i, q);
    }
  }

  /** The only epilogue met inside a region is its own. */
  lemma EndOfThis(rs: seq<Region>, i: nat, x: int)
    requires RegionsOk(rs) && i < |rs| && IsEnd(rs, x) && rs[i].base < x <= End(rs[i])
    ensures x == End(rs[i])
  {
    hide RegionsOk;
    var j :| 0 <= j < |rs| && End(rs[j]) == x;
    RegionsApart(rs, i, j);
  }

  /** Blocks keep clear of the words around other regions. */
  lemma ClearOfFrames(b: Blocks, rs: seq<Region>, p: int, i: nat)
    requires Laid(b, rs) && p in b && i < |rs|
    ensures Proper(p, b[p])
    ensures p + b[p].size <= rs[i].base || End(rs[i]) < p || Inside(rs[i], p, b[p])
  {
    hide Tiles, NoOverlap, RegionsOk;
    var j := RegionOf(b, rs, p);
    RegionsApart(rs, i, j);
  }

  lemma Disjoint(b: Blocks, p: int, q: int)
    requires NoOverlap(b) && p in b && q in b && p < q
    ensures p + b[p].size <= q
  {}

  // ---------------------------------------------------------------- merging and splitting

  /** `p` takes over its neighbour. */
  function Fused(b: Blocks, p: int): Blocks
    requires p in b && p + b[p].size in b
  {
    var q := p + b[p].size;
    (b - {q})[p := Blk(b[p].size + b[q].size, b[p].used)]
  }

  lemma FusedApart(b: Blocks, p: int)
    requires NoOverlap(b) && p in b && p + b[p].size in b && b[p].size > 0 && b[p + b[p].size].size > 0
    ensures NoOverlap(Fused(b, p))
  {
    var f, q := Fused(b, p), p + b[p].size;
    forall x, y | x in f && y in f && x < y ensures x + f[x].size <= y {
      Disjoint(b, x, y);
      if x == p { Disjoint(b, q, y); }
    }
  }

  lemma FusedLaid(b: Blocks, rs: seq<Region>, p: int)
    requires Laid(b, rs) && p in b && p + b[p].size in b
    ensures Laid(Fused(b, p), rs)
  {
    hide Tiles, NoOverlap, RegionsOk, IsStart, IsEnd, HasPrev, InSome, Fused;
    var q, f := p + b[p].size, Fused(b, p);
    var _ := RegionOf(b, rs, p);
    var _ := RegionOf(b, rs, q);
    FusedApart(b, p);
    forall x | x in f ensures PlaceAt(f, rs, x) { FusedPlace(b, rs, p, x); }
    forall x | x in f ensures NextAt(f, rs, x) { FusedNext(b, rs, p, x); }
    forall x | x in f ensures PrevAt(f, rs, x) { FusedPrev(b, rs, p, x); }
    forall k: nat | k < |rs| ensures Start(rs[k]) in f { FusedStart(b, rs, p, k); }
    MakeTiles(f, rs);
  }

  lemma MakeTiles(b: Blocks, rs: seq<Region>)
    requires forall p :: p in b ==> PlaceAt(b, rs, p)
    requires forall p :: p in b ==> NextAt(b, rs, p)
    requires forall p :: p in b ==> PrevAt(b, rs, p)
    requires forall i: nat :: i < |rs| ==> Start(rs[i]) in b
    ensures Tiles(b, rs)
  {
    hide NextAt, PrevAt, PlaceAt;
  }

  lemma FusedPlace(b: Blocks, rs: seq<Region>, p: int, x: int)
    requires Laid(b, rs) && p in b && p + b[p].size in b && x in Fused(b, p)
    ensures PlaceAt(Fused(b, p), rs, x)
  {
    hide Tiles, NoOverlap, RegionsOk;
    var q := p + b[p].size;
    var i := RegionOf(b, rs, x);
    var j := RegionOf(b, rs, q);
    if x == p {
      RegionsApart(rs, i, j);
      assert Inside(rs[i], p, Fused(b, p)[p]);
    }
  }

  lemma FusedNext(b: Blocks, rs: seq<Region>, p: int, x: int)
    requires Laid(b, rs) && p in b && p + b[p].size in b && x in Fused(b, p)
    ensures NextAt(Fused(b, p), rs, x)
  {
    hide Tiles, NoOverlap, RegionsOk, IsEnd;
    var q := p + b[p].size;
    var _ := RegionOf(b, rs, p);
    var _ := RegionOf(b, rs, x);
    var _ := RegionOf(b, rs, q);
    NextOf(b, rs, x);
    NextOf(b, rs, q);
    if x != p { SameNext(b, rs, p, x); }
  }

  /** Two blocks never have the same successor. */
  lemma SameNext(b: Blocks, rs: seq<Region>, p: int, x: int)
    requires Laid(b, rs) && p in b && x in b && x != p
    ensures p + b[p].size != x + b[x].size
  {
    hide Tiles, RegionsOk;
    var _ := RegionOf(b, rs, p);
    var _ := RegionOf(b, rs, x);
    if x < p { Disjoint(b, x, p); } else { Disjoint(b, p, x); }
  }

  lemma FusedPrev(b: Blocks, rs: seq<Region>, p: int, x: int)
    requires Laid(b, rs) && p in b && p + b[p].size in b && x in Fused(b, p)
    ensures PrevAt(Fused(b, p), rs, x)
  {
    hide Tiles, NoOverlap, RegionsOk, IsStart;
    PrevOf(b, rs, x);
    var q, f := p + b[p].size, Fused(b, p);
    var _ := RegionOf(b, rs, p);
    var _ := RegionOf(b, rs, q);
    if !IsStart(rs, x) {
      var w :| w in b && w + b[w].size == x;
      if w == q {
        assert p in f && p + f[p].size == x;
      } else {
        assert w in f && w != p && w + f[w].size == x;
      }
    }
  }

  lemma FusedStart(b: Blocks, rs: seq<Region>, p: int, i: nat)
    requires Laid(b, rs) && p in b && p + b[p].size in b && i < |rs|
    ensures Start(rs[i]) in Fused(b, p)
  {
    hide Tiles, NoOverlap, RegionsOk;
    StartIn(b, rs, i);
    ClearOfFrames(b, rs, p, i);
    RegionsApart(rs, i, i);
  }

  /** The front of `p` becomes a block of its own. */
  function Parted(b: Blocks, p: int, size: int): Blocks
    requires p in b
  {
    b[p := Blk(size, true)][p + size := Blk(b[p].size - size, false)]
  }

  ghost predicate Partable(b: Blocks, p: int, size: int) {
    p in b && size % 2 == 0 && size >= MIN_BLOCK && b[p].size - size >= MIN_BLOCK
  }

  lemma PartedApart(b: Blocks, p: int, size: int)
    requires NoOverlap(b) && Partable(b, p, size)
    ensures p + size !in b && NoOverlap(Parted(b, p, size))
  {
    var f, q := Parted(b, p, size), p + size;
    if q in b { Disjoint(b, p, q); }
    forall x, y | x in f && y in f && x < y ensures x + f[x].size <= y {
      if x in b && y in b { Disjoint(b, x, y); }
      if x == q && y != p { Disjoint(b, p, y); }
      if y == q && x != p && x < p { Disjoint(b, x, p); }
      if y == q && p < x { Disjoint(b, p, x); }
    }
  }

  lemma PartedLaid(b: Blocks, rs: seq<Region>, p: int, size: int)
    requires Laid(b, rs) && Partable(b, p, size)
    ensures p + size !in b && Laid(Parted(b, p, size), rs)
  {
    hide Tiles, NoOverlap, RegionsOk, IsStart, IsEnd, HasPrev, InSome, Parted;
    var f := Parted(b, p, size);
    PartedApart(b, p, size);
    forall x | x in f ensures PlaceAt(f, rs, x) { PartedPlace(b, rs, p, size, x); }
    forall x | x in f ensures NextAt(f, rs, x) { PartedNext(b, rs, p, size, x); }
    forall x | x in f ensures PrevAt(f, rs, x) { PartedPrev(b, rs, p, size, x); }
    forall k: nat | k < |rs| ensures Start(rs[k]) in f { PartedStart(b, rs, p, size, k); }
    MakeTiles(f, rs);
  }

  lemma PartedStart(b: Blocks, rs: seq<Region>, p: int, size: int, i: nat)
    requires Laid(b, rs) && Partable(b, p, size) && i < |rs|
    ensures Start(rs[i]) in Parted(b, p, size)
  {
    hide Tiles, NoOverlap, RegionsOk;
    StartIn(b, rs, i);
  }

  lemma PartedPlace(b: Blocks, rs: seq<Region>, p: int, size: int, x: int)
    requires Laid(b, rs) && Partable(b, p, size) && x in Parted(b, p, size)
    ensures PlaceAt(Parted(b, p, size), rs, x)
  {
    hide Tiles, NoOverlap, RegionsOk;
    var f := Parted(b, p, size);
    var i := RegionOf(b, rs, if x == p + size then p else x);
    assert Inside(rs[i], x, f[x]);
  }

  lemma PartedNext(b: Blocks, rs: seq<Region>, p: int, size: int, x: int)
    requires Laid(b, rs) && Partable(b, p, size) && x in Parted(b, p, size)
    ensures NextAt(Parted(b, p, size), rs, x)
  {
    hide Tiles, NoOverlap, RegionsOk, IsEnd;
    NextOf(b, rs, if x == p + size then p else x);
  }

  lemma PartedPrev(b: Blocks, rs: seq<Region>, p: int, size: int, x: int)
    requires Laid(b, rs) && Partable(b, p, size) && x in Parted(b, p, size)
    ensures PrevAt(Parted(b, p, size), rs, x)
  {
    hide Tiles, NoOverlap, RegionsOk, IsStart;
    var f, q := Parted(b, p, size), p + size;
    PartedApart(b, p, size);
    if x == q {
      assert p in f && p + f[p].size == x;
    } else {
      PrevOf(b, rs, x);
      if !IsStart(rs, x) {
        var w :| w in b && w + b[w].size == x;
        assert if w == p then q in f && q + f[q].size == x else w in f && w + f[w].size == x;
      }
    }
  }

  // ---------------------------------------------------------------- a new region

  function Grown(b: Blocks, r: Region): Blocks {
    b[Start(r) := Blk(r.total - 4, false)]
  }

  lemma OutsideNew(b: Blocks, rs: seq<Region>, r: Region, p: int)
    requires Laid(b, rs) && RegionsOk([r] + rs) && p in b
    ensures Proper(p, b[p]) && (End(r) < p || p + b[p].size <= r.base)
  {
    hide Tiles, NoOverlap, RegionsOk;
    var j := RegionOf(b, rs, p);
    assert ([r] + rs)[j + 1] == rs[j] && ([r] + rs)[0] == r;
    RegionsApart([r] + rs, 0, j + 1);
  }

  lemma GrownLaid(b: Blocks, rs: seq<Region>, r: Region)
    requires Laid(b, rs) && RegionsOk([r] + rs)
    ensures Start(r) !in b && Laid(Grown(b, r), [r] + rs)
  {
    hide Tiles, NoOverlap, RegionsOk, IsStart, IsEnd, HasPrev, InSome;
    var f, rs' := Grown(b, r), [r] + rs;
    assert rs'[0] == r;
    RegionsApart(rs', 0, 0);
    if Start(r) in b { OutsideNew(b, rs, r, Start(r)); var _ := RegionOf(b, rs, Start(r)); }
    GrownApart(b, rs, r);
    forall x | x in f ensures PlaceAt(f, rs', x) { GrownPlace(b, rs, r, x); }
    forall x | x in f ensures NextAt(f, rs', x) { GrownNext(b, rs, r, x); }
    forall x | x in f ensures PrevAt(f, rs', x) { GrownPrev(b, rs, r, x); }
    forall k: nat | k < |rs'| ensures Start(rs'[k]) in f {
      if k > 0 { StartIn(b, rs, k - 1); }
    }
    MakeTiles(f, rs');
  }

  lemma GrownApart(b: Blocks, rs: seq<Region>, r: Region)
    requires Laid(b, rs) && RegionsOk([r] + rs) && Start(r) !in b
    ensures NoOverlap(Grown(b, r))
  {
    hide Tiles, RegionsOk;
    var f := Grown(b, r);
    assert ([r] + rs)[0] == r;
    RegionsApart([r] + rs, 0, 0);
    forall x, y | x in f && y in f && x < y ensures x + f[x].size <= y {
      if x in b { OutsideNew(b, rs, r, x); }
      if y in b { OutsideNew(b, rs, r, y); }
      if x in b && y in b { Disjoint(b, x, y); }
    }
  }

  lemma WholePages(rs: seq<Region>, i: nat)
    requires RegionsOk(rs) && i < |rs|
    ensures rs[i].base > 0 && rs[i].base % PAGE == 0 && rs[i].total % PAGE == 0 && rs[i].total >= PAGE
  {}

  lemma PagesEven(base: int, total: int)
    requires base % PAGE == 0 && total % PAGE == 0
    ensures (base + 4) % 2 == 0 && (total - 4) % 2 == 0
  {
    TwiceEven(base, PAGE / 2 * (base / PAGE));
    TwiceEven(total, PAGE / 2 * (total / PAGE));
  }

  lemma TwiceEven(x: int, half: int)
    requires x == 2 * half
    ensures (x + 4) % 2 == 0 && (x - 4) % 2 == 0
  {}

  lemma GrownPlace(b: Blocks, rs: seq<Region>, r: Region, x: int)
    requires Laid(b, rs) && RegionsOk([r] + rs) && Start(r) !in b && x in Grown(b, r)
    ensures PlaceAt(Grown(b, r), [r] + rs, x)
  {
    hide Tiles, NoOverlap, RegionsOk;
    var rs' := [r] + rs;
    assert rs'[0] == r;
    if x == Start(r) {
      WholePages(rs', 0);
      PagesEven(r.base, r.total);
      assert Inside(rs'[0], x, Grown(b, r)[x]);
    } else {
      var j := RegionOf(b, rs, x);
      assert rs'[j + 1] == rs[j] && Inside(rs'[j + 1], x, Grown(b, r)[x]);
    }
  }

  lemma GrownNext(b: Blocks, rs: seq<Region>, r: Region, x: int)
    requires Laid(b, rs) && RegionsOk([r] + rs) && Start(r) !in b && x in Grown(b, r)
    ensures NextAt(Grown(b, r), [r] + rs, x)
  {
    hide Tiles, NoOverlap, RegionsOk;
    var rs' := [r] + rs;
    if x == Start(r) {
      assert End(rs'[0]) == x + Grown(b, r)[x].size;
    } else {
      NextOf(b, rs, x);
      if x + b[x].size !in b {
        var j :| 0 <= j < |rs| && End(rs[j]) == x + b[x].size;
        assert End(rs'[j + 1]) == x + b[x].size;
      }
    }
  }

  lemma GrownPrev(b: Blocks, rs: seq<Region>, r: Region, x: int)
    requires Laid(b, rs) && RegionsOk([r] + rs) && Start(r) !in b && x in Grown(b, r)
    ensures PrevAt(Grown(b, r), [r] + rs, x)
  {
    hide Tiles, NoOverlap, RegionsOk;
    var rs', f := [r] + rs, Grown(b, r);
    if x == Start(r) {
      assert Start(rs'[0]) == x;
    } else {
      PrevOf(b, rs, x);
      if IsStart(rs, x) {
        var j :| 0 <= j < |rs| && Start(rs[j]) == x;
        assert Start(rs'[j + 1]) == x;
      } else {
        var w :| w in b && w + b[w].size == x;
        assert w in f && w + f[w].size == x;
      }
    }
  }
}
