/** `balloc_check` of `C-Allocator/src/balloc.c`, on any memory its walk gets through, sound or not:
    what a zero says, and what it takes to make it say something else. */
module AllocCheck {
  import opened AllocLists
  import opened AllocLayout
  import opened AllocMemory
  import opened AllocHeap
  import opened AllocSteps
  import opened AllocSizes

  /** The first payload of a region, rounded up as the source does. */
  function First(r: Region): int
    requires r.base >= 0
  {
    AlignUp(8 * (r.base + 2 + 1 + 1), 16) / 8
  }

  // ---------------------------------------------------------------- what the check can read

  /** From `p` the size in the header leads to `q`, and the words read on the way are there. */
  ghost predicate Leads(mem: Memory, p: int, q: int) {
    && p > 0 && p - 1 in mem && SizeOf(mem[p - 1]) > 0
    && p + SizeOf(mem[p - 1]) - 2 in mem && q == p + SizeOf(mem[p - 1])
  }

  /** The walk `w` from `p` comes to a header of size zero. */
  ghost predicate Walk(mem: Memory, w: seq<int>, p: int) {
    && w != [] && w[0] == p
    && (forall i :: 0 <= i < |w| - 1 ==> Leads(mem, w[i], w[i + 1]))
    && w[|w| - 1] - 1 in mem && SizeOf(mem[w[|w| - 1] - 1]) <= 0
  }

  /** The blocks on a walk: all but the header of size zero. */
  function Passed(w: seq<int>): seq<int> {
    if w == [] then [] else w[..|w| - 1]
  }

  lemma WalkAt(mem: Memory, w: seq<int>, p: int, i: nat)
    requires Walk(mem, w, p)
    ensures w != [] && w[0] == p && (i < |w| ==> w[i] - 1 in mem && (SizeOf(mem[w[i] - 1]) > 0 <==> i < |w| - 1))
    ensures i < |w| - 1 ==> Leads(mem, w[i], w[i + 1])
  {
    hide SizeOf;
    if i < |w| - 1 { assert Leads(mem, w[i], w[i + 1]); }
  }

  /** Following the links from `head` meets the nodes of `l`, each with a header. */
  ghost predicate Chained(mem: Memory, head: int, l: seq<int>) {
    && head == At(l, 0)
    && forall i :: 0 <= i < |l| ==> l[i] != 0 && l[i] in mem && mem[l[i]] == At(l, i + 1) && l[i] - 1 in mem
  }

  /** Every walk and every list comes to its end. */
  ghost predicate Readable(mem: Memory, heads: seq<int>, rs: seq<Region>, ws: seq<seq<int>>, lists: seq<seq<int>>) {
    && |ws| == |rs| && |heads| == |lists| == NCLASS
    && (forall k :: 0 <= k < |rs| ==> rs[k].base >= 0 && Walk(mem, ws[k], First(rs[k])))
    && (forall c :: 0 <= c < NCLASS ==> Chained(mem, heads[c], lists[c]))
  }

  // ---------------------------------------------------------------- what it looks for

  /** Block `p`, met behind `prev`, is as the allocator keeps its blocks. */
  ghost predicate Right(mem: Memory, lists: seq<seq<int>>, prev: int, p: int) {
    p - 1 in mem && p + SizeOf(mem[p - 1]) - 2 in mem &&
    var size := SizeOf(mem[p - 1]);
    && p % 2 == 0 && mem[p - 1] == mem[p + size - 2] && size >= MIN_BLOCK
    && (!UsedOf(mem[p - 1]) ==> Listed(lists, p) && (prev != 0 && prev - 1 in mem ==> UsedOf(mem[prev - 1])))
  }

  /** The fault each code stands for. */
  ghost predicate Fault(mem: Memory, lists: seq<seq<int>>, prev: int, p: int, code: int) {
    p - 1 in mem && p + SizeOf(mem[p - 1]) - 2 in mem &&
    match code
    case -1 => p % 2 != 0
    case -2 => mem[p - 1] != mem[p + SizeOf(mem[p - 1]) - 2]
    case -3 => SizeOf(mem[p - 1]) < MIN_BLOCK
    case -4 => !UsedOf(mem[p - 1]) && !Listed(lists, p)
    case -5 => !UsedOf(mem[p - 1]) && prev != 0 && prev - 1 in mem && !UsedOf(mem[prev - 1])
    case _ => false
  }

  /** The first fault of a block, in the order of the codes. */
  ghost predicate FirstFault(mem: Memory, lists: seq<seq<int>>, prev: int, p: int, code: int) {
    Fault(mem, lists, prev, p, code) && forall c :: code < c <= -1 ==> !Fault(mem, lists, prev, p, c)
  }

  lemma FaultIsWrong(mem: Memory, lists: seq<seq<int>>, prev: int, p: int, code: int)
    requires Fault(mem, lists, prev, p, code)
    ensures !Right(mem, lists, prev, p) && -5 <= code <= -1
  {}

  function Before(w: seq<int>, prev: int, i: nat): int
    requires i <= |w|
  {
    if i == 0 then prev else w[i - 1]
  }

  ghost predicate AllRight(mem: Memory, lists: seq<seq<int>>, w: seq<int>, prev: int) {
    forall i :: 0 <= i < |w| - 1 ==> Right(mem, lists, Before(w, prev, i), w[i])
  }

  /** `code` is the first fault of the first block on the walk that has any. */
  ghost predicate Finds(mem: Memory, lists: seq<seq<int>>, w: seq<int>, code: int) {
    exists i :: 0 <= i < |w| - 1 && FirstFault(mem, lists, Before(w, 0, i), w[i], code) &&
      forall j :: 0 <= j < i ==> Right(mem, lists, Before(w, 0, j), w[j])
  }

  /** And of the first chunk that has any. */
  ghost predicate FirstFound(mem: Memory, lists: seq<seq<int>>, ws: seq<seq<int>>, code: int) {
    exists k :: 0 <= k < |ws| && Finds(mem, lists, ws[k], code) && RightBefore(mem, lists, ws, k)
  }

  ghost predicate RightBefore(mem: Memory, lists: seq<seq<int>>, ws: seq<seq<int>>, k: nat) {
    k <= |ws| && forall j :: 0 <= j < k ==> AllRight(mem, lists, ws[j], 0)
  }

  /** No list holds a block that is in use. */
  ghost predicate ListsFree(mem: Memory, lists: seq<seq<int>>) {
    forall c, i :: 0 <= c < |lists| && 0 <= i < |lists[c]| ==> lists[c][i] - 1 in mem && !UsedOf(mem[lists[c][i] - 1])
  }

  ghost predicate Sane(mem: Memory, ws: seq<seq<int>>, lists: seq<seq<int>>) {
    (forall k :: 0 <= k < |ws| ==> AllRight(mem, lists, ws[k], 0)) && ListsFree(mem, lists)
  }

  lemma FaultUnsane(mem: Memory, ws: seq<seq<int>>, lists: seq<seq<int>>, k: nat, code: int)
    requires k < |ws| && Finds(mem, lists, ws[k], code)
    ensures !Sane(mem, ws, lists) && -5 <= code <= -1
  {
    hide Right, Fault;
    var i :| 0 <= i < |ws[k]| - 1 && FirstFault(mem, lists, Before(ws[k], 0, i), ws[k][i], code);
    FaultIsWrong(mem, lists, Before(ws[k], 0, i), ws[k][i], code);
    assert !AllRight(mem, lists, ws[k], 0);
  }

  // ---------------------------------------------------------------- a sound heap

  /** The walk stands on a block of the chunk, or at its end. */
  ghost predicate OnWalk(h: Heap, k: nat, p: int) {
    k < |h.rs| && h.rs[k].base < p <= End(h.rs[k]) && (p in h.b || p == End(h.rs[k]))
  }

  /** The first payload needs no padding: regions start on pages. */
  lemma FirstPayload(r: Region)
    requires r.base >= 0 && r.base % PAGE == 0
    ensures First(r) == Start(r)
  {
    AlignedStays(8 * (r.base + 4));
  }

  lemma StartOf(b: Blocks, rs: seq<Region>, k: nat)
    requires Laid(b, rs) && k < |rs|
    ensures Start(rs[k]) in b && Start(rs[k]) < End(rs[k])
  {
    StartIn(b, rs, k);
    WholePages(rs, k);
  }

  lemma TagHere(h: Heap, k: nat, p: int)
    requires Good(h, {}, {}) && OnWalk(h, k, p)
    ensures p - 1 in h.mem && (SizeOf(h.mem[p - 1]) > 0 <==> p in h.b)
  {
    hide Good, Laid, SizeOf, Pack;
    GoodSized(h, {}, {});
    if p in h.b {
      TagParts(h, {}, p);
      ProperSize(h.b, h.rs, p);
    } else {
      assert IsEnd(h.rs, p);
      EndTag(h, {}, {}, p);
      PackParts(0, true);
    }
  }

  lemma BlockHere(h: Heap, k: nat, p: int)
    requires Good(h, {}, {}) && OnWalk(h, k, p) && p in h.b
    ensures p % 2 == 0 && h.b[p].size % 2 == 0 && h.b[p].size >= MIN_BLOCK && p > 0
    ensures p - 1 in h.mem && p + h.b[p].size - 2 in h.mem && h.mem[p - 1] == h.mem[p + h.b[p].size - 2]
    ensures SizeOf(h.mem[p - 1]) == h.b[p].size && UsedOf(h.mem[p - 1]) == h.b[p].used
  {
    hide Good, Laid, SizeOf, UsedOf;
    GoodSized(h, {}, {});
    ProperSize(h.b, h.rs, p);
    TagsAlike(h, p);
    TagParts(h, {}, p);
  }

  lemma WalkOn(h: Heap, k: nat, p: int)
    requires Good(h, {}, {}) && OnWalk(h, k, p) && p in h.b
    ensures OnWalk(h, k, p + h.b[p].size) && h.b[p].size >= MIN_BLOCK && p + h.b[p].size <= End(h.rs[k])
  {
    hide Tagged, ListsOk, FiledRight, FiledAll, Tiles, NoOverlap, RegionsOk, IsEnd;
    var j := RegionOf(h.b, h.rs, p);
    RegionsApart(h.rs, j, k);
    NextOf(h.b, h.rs, p);
    SameRegion(h.b, h.rs, p, k);
    if p + h.b[p].size !in h.b { EndOfThis(h.rs, k, p + h.b[p].size); }
  }

  lemma FreeIsListed(h: Heap, p: int)
    requires Good(h, {}, {}) && p in h.b && !h.b[p].used
    ensures Listed(h.lists, p)
  {
    hide Laid, Tagged, ListsOk, FiledRight, ClassOf;
    GoodSized(h, {}, {});
  }

  lemma PrevIsUsed(b: Blocks, p: int)
    requires NoFreePair(b, {}) && p in b && p + b[p].size in b && !b[p + b[p].size].used
    ensures b[p].used
  {
    assert Guarded(b, {}, p);
  }

  /** `prev` is the block right before `p`, or there is none. */
  ghost predicate Precedes(h: Heap, k: nat, prev: int, p: int) {
    prev != 0 ==> OnWalk(h, k, prev) && prev in h.b && prev + h.b[prev].size == p
  }

  lemma RightHere(h: Heap, k: nat, prev: int, p: int)
    requires Good(h, {}, {}) && NoFreePair(h.b, {}) && OnWalk(h, k, p) && p in h.b && Precedes(h, k, prev, p)
    ensures Right(h.mem, h.lists, prev, p) && Leads(h.mem, p, p + h.b[p].size)
  {
    hide Good, Listed, SizeOf, UsedOf, NoFreePair, OnWalk;
    BlockHere(h, k, p);
    if !h.b[p].used {
      FreeIsListed(h, p);
      if prev != 0 {
        PrevIsUsed(h.b, prev);
        BlockHere(h, k, prev);
      }
    }
  }

  lemma WalkMore(mem: Memory, lists: seq<seq<int>>, prev: int, p: int, q: int, rest: seq<int>)
    requires Leads(mem, p, q) && Right(mem, lists, prev, p) && Walk(mem, rest, q) && AllRight(mem, lists, rest, p)
    ensures Walk(mem, [p] + rest, p) && AllRight(mem, lists, [p] + rest, prev)
  {
    hide Leads, Right, SizeOf;
    var w := [p] + rest;
    forall i | 0 <= i < |w| - 1 ensures Right(mem, lists, Before(w, prev, i), w[i]) && Leads(mem, w[i], w[i + 1]) {
      if i > 0 { assert Before(w, prev, i) == Before(rest, p, i - 1) && w[i] == rest[i - 1]; }
    }
  }

  lemma WalkNone(mem: Memory, lists: seq<seq<int>>, prev: int, p: int)
    requires p - 1 in mem && SizeOf(mem[p - 1]) <= 0
    ensures Walk(mem, [p], p) && AllRight(mem, lists, [p], prev)
  {}

  /** The walk through a chunk of a sound heap: over even addresses, finding nothing wrong, and missing
      no block. */
  lemma {:induction false} WalkFrom(h: Heap, k: nat, prev: int, p: int) returns (w: seq<int>)
    requires Good(h, {}, {}) && NoFreePair(h.b, {}) && k < |h.rs| && OnWalk(h, k, p) && Precedes(h, k, prev, p)
    requires p % 2 == 0
    ensures w != [] && Walk(h.mem, w, p) && AllRight(h.mem, h.lists, w, prev)
    ensures forall i :: 0 <= i < |w| ==> w[i] % 2 == 0
    ensures forall q :: q in h.b && p <= q < End(h.rs[k]) ==> q in Passed(w)
    decreases End(h.rs[k]) - p
  {
    hide Good, NoFreePair, Right, Leads, SizeOf, Walk, AllRight, OnWalk;
    TagHere(h, k, p);
    if p in h.b {
      BlockHere(h, k, p);
      RightHere(h, k, prev, p);
      WalkOn(h, k, p);
      var rest := WalkFrom(h, k, p, p + h.b[p].size);
      w := [p] + rest;
      WalkMore(h.mem, h.lists, prev, p, p + h.b[p].size, rest);
      hide Walk, AllRight;
      assert Passed(w) == [p] + Passed(rest);
      forall q | q in h.b && p <= q < End(h.rs[k]) ensures q in Passed(w) {
        if q != p { NoneBetween(h, p, q); }
      }
    } else {
      w := [p];
      AtItsEnd(h, k, p);
      WalkNone(h.mem, h.lists, prev, p);
    }
  }

  lemma NoneBetween(h: Heap, p: int, q: int)
    requires Good(h, {}, {}) && p in h.b && q in h.b && p < q
    ensures p + h.b[p].size <= q
  {
    hide Tagged, ListsOk, FiledRight, FiledAll, RegionsOk, Tiles;
  }

  lemma AtItsEnd(h: Heap, k: nat, p: int)
    requires OnWalk(h, k, p) && p !in h.b
    ensures p == End(h.rs[k])
  {}

  lemma ChunkWalk(h: Heap, k: nat) returns (w: seq<int>)
    requires Good(h, {}, {}) && NoFreePair(h.b, {}) && k < |h.rs|
    ensures h.rs[k].base >= 0 && Walk(h.mem, w, First(h.rs[k])) && AllRight(h.mem, h.lists, w, 0)
    ensures forall i :: 0 <= i < |w| ==> w[i] % 2 == 0
    ensures forall q :: q in h.b && h.rs[k].base <= q < End(h.rs[k]) ==> q in Passed(w)
  {
    hide Good, NoFreePair, Laid, Walk, AllRight;
    GoodSized(h, {}, {});
    WholePages(h.rs, k);
    FirstPayload(h.rs[k]);
    StartOf(h.b, h.rs, k);
    BlockHere(h, k, Start(h.rs[k]));
    w := WalkFrom(h, k, 0, Start(h.rs[k]));
    forall q | q in h.b && h.rs[k].base <= q < End(h.rs[k]) ensures Start(h.rs[k]) <= q { InChunk(h, k, q); }
  }

  lemma InChunk(h: Heap, k: nat, q: int)
    requires Good(h, {}, {}) && k < |h.rs| && q in h.b && h.rs[k].base <= q < End(h.rs[k])
    ensures Start(h.rs[k]) <= q
  {
    hide Tagged, ListsOk, FiledRight, FiledAll, Laid;
    SameRegion(h.b, h.rs, q, k);
  }

  lemma ChainHere(h: Heap, c: nat)
    requires Good(h, {}, {}) && c < NCLASS
    ensures |h.heads| == |h.lists| == NCLASS && Chained(h.mem, h.heads[c], h.lists[c])
    ensures forall n :: n in h.lists[c] ==> n - 1 in h.mem && !UsedOf(h.mem[n - 1]) && n in h.b && !h.b[n].used
  {
    hide Good, UsedOf;
    GoodSized(h, {}, {});
    HeadOf(h, {}, {}, c);
    forall i: nat | i < |h.lists[c]| ensures
      var n := h.lists[c][i];
      && n != 0 && n in h.mem && h.mem[n] == At(h.lists[c], i + 1)
      && n - 1 in h.mem && !UsedOf(h.mem[n - 1]) && n in h.b && !h.b[n].used
    {
      NodeOf(h, {}, {}, c, i);
      ListedIsFree(h, {}, {}, c, h.lists[c][i]);
      TagParts(h, {}, h.lists[c][i]);
    }
  }

  ghost predicate EvenWalks(ws: seq<seq<int>>) {
    forall k, i :: 0 <= k < |ws| && 0 <= i < |ws[k]| ==> ws[k][i] % 2 == 0
  }

  ghost predicate Visits(ws: seq<seq<int>>, q: int) {
    exists k :: 0 <= k < |ws| && q in Passed(ws[k])
  }

  lemma {:induction false} WalksTo(h: Heap, n: nat) returns (ws: seq<seq<int>>)
    requires Good(h, {}, {}) && NoFreePair(h.b, {}) && n <= |h.rs|
    ensures |ws| == n && EvenWalks(ws)
    ensures forall k :: 0 <= k < n ==>
      h.rs[k].base >= 0 && Walk(h.mem, ws[k], First(h.rs[k])) && AllRight(h.mem, h.lists, ws[k], 0)
    ensures forall k, q :: 0 <= k < n && q in h.b && h.rs[k].base <= q < End(h.rs[k]) ==> q in Passed(ws[k])
  {
    hide Good, NoFreePair, AllRight;
    if n == 0 {
      ws := [];
    } else {
      var before := WalksTo(h, n - 1);
      var w := ChunkWalk(h, n - 1);
      assert |w| > 0;
      hide Walk;
      ws := before + [w];
    }
  }

  /** A sound heap can be read through, every block is met, and nothing is wrong. */
  lemma SoundIsSane(h: Heap) returns (ws: seq<seq<int>>)
    requires Good(h, {}, {}) && NoFreePair(h.b, {})
    ensures Readable(h.mem, h.heads, h.rs, ws, h.lists) && Sane(h.mem, ws, h.lists) && EvenWalks(ws)
    ensures forall q :: q in h.b ==> Visits(ws, q)
  {
    ws := WalksTo(h, |h.rs|);
    hide Good, NoFreePair, AllRight, Walk, UsedOf;
    GoodSized(h, {}, {});
    forall c: nat | c < NCLASS ensures Chained(h.mem, h.heads[c], h.lists[c]) { ChainHere(h, c); }
    forall c: nat, i: nat | c < NCLASS && i < |h.lists[c]|
      ensures h.lists[c][i] - 1 in h.mem && !UsedOf(h.mem[h.lists[c][i] - 1])
    {
      ChainHere(h, c);
      assert h.lists[c][i] in h.lists[c];
    }
    forall q | q in h.b ensures Visits(ws, q) {
      var k := RegionOf(h.b, h.rs, q);
      assert h.rs[k].base <= q < End(h.rs[k]);
    }
  }

  // ---------------------------------------------------------------- an overrun

  /** The word right behind a payload, the footer, overwritten with anything else: the heap can still
      be read through, but it is not sane. */
  lemma OverrunShows(h: Heap, p: int, v: int) returns (ws: seq<seq<int>>)
    requires Good(h, {}, {}) && NoFreePair(h.b, {}) && p in h.b && p + h.b[p].size - 2 in h.mem
    requires v != h.mem[p + h.b[p].size - 2]
    ensures var mem := h.mem[p + h.b[p].size - 2 := v];
      Readable(mem, h.heads, h.rs, ws, h.lists) && !Sane(mem, ws, h.lists)
  {
    hide Good, NoFreePair, Readable, Sane, EvenWalks, Visits;
    ws := SoundIsSane(h);
    OverrunReadable(h, p, v, ws);
    TagsAlike(h, p);
    assert Visits(ws, p);
    hide SizeOf;
    NotRight(h.mem, ws, h.lists, p, p + h.b[p].size - 2, v);
  }

  lemma TagsAlike(h: Heap, p: int)
    requires Good(h, {}, {}) && p in h.b
    ensures p - 1 in h.mem && p + h.b[p].size - 2 in h.mem && h.mem[p - 1] == h.mem[p + h.b[p].size - 2]
    ensures SizeOf(h.mem[p - 1]) == h.b[p].size && h.b[p].size >= MIN_BLOCK
  {
    hide Good, Laid;
    GoodSized(h, {}, {});
    ProperSize(h.b, h.rs, p);
    TagOf(h, {}, {}, p);
    TagParts(h, {}, p);
  }

  lemma OverrunReadable(h: Heap, p: int, v: int, ws: seq<seq<int>>)
    requires Good(h, {}, {}) && p in h.b && p + h.b[p].size - 2 in h.mem
    requires Readable(h.mem, h.heads, h.rs, ws, h.lists) && EvenWalks(ws)
    ensures Readable(h.mem[p + h.b[p].size - 2 := v], h.heads, h.rs, ws, h.lists)
  {
    hide Good, Walk, EvenWalks, Chained, Laid;
    var f := p + h.b[p].size - 2;
    var mem := h.mem[f := v];
    GoodSized(h, {}, {});
    ProperSize(h.b, h.rs, p);
    forall k | 0 <= k < |ws| ensures Walk(mem, ws[k], First(h.rs[k])) {
      EvenWalk(ws, k);
      WalkKept(h.mem, f, v, ws[k], First(h.rs[k]));
    }
    forall c: nat | c < NCLASS ensures Chained(mem, h.heads[c], h.lists[c]) { ChainKept(h, c, p, v); }
  }

  lemma EvenWalk(ws: seq<seq<int>>, k: nat)
    requires EvenWalks(ws) && k < |ws|
    ensures forall i :: 0 <= i < |ws[k]| ==> ws[k][i] % 2 == 0
  {}

  /** Footers are at even addresses, headers at odd ones. */
  lemma WalkKept(mem: Memory, f: int, v: int, w: seq<int>, p: int)
    requires Walk(mem, w, p) && f % 2 == 0 && f in mem && forall i :: 0 <= i < |w| ==> w[i] % 2 == 0
    ensures Walk(mem[f := v], w, p)
  {
    hide SizeOf;
    forall i | 0 <= i < |w| - 1 ensures Leads(mem[f := v], w[i], w[i + 1]) {
      assert Leads(mem, w[i], w[i + 1]) && w[i] % 2 == 0;
    }
  }

  lemma ChainKept(h: Heap, c: nat, p: int, v: int)
    requires Good(h, {}, {}) && c < NCLASS && p in h.b && p + h.b[p].size - 2 in h.mem
    ensures |h.heads| == |h.lists| == NCLASS && Chained(h.mem[p + h.b[p].size - 2 := v], h.heads[c], h.lists[c])
  {
    hide Good, Laid;
    GoodSized(h, {}, {});
    ChainHere(h, c);
    ProperSize(h.b, h.rs, p);
    forall i: nat | i < |h.lists[c]| ensures h.lists[c][i] != p + h.b[p].size - 2 {
      var n := h.lists[c][i];
      assert n in h.lists[c];
      if n != p { TagWordsOwn(h.b, h.rs, n, p); }
    }
  }

  lemma NotRight(mem: Memory, ws: seq<seq<int>>, lists: seq<seq<int>>, p: int, f: int, v: int)
    requires Visits(ws, p) && p - 1 in mem && f in mem && f == p + SizeOf(mem[p - 1]) - 2 && f != p - 1
    requires v != mem[p - 1]
    ensures !Sane(mem[f := v], ws, lists)
  {
    var k :| 0 <= k < |ws| && p in Passed(ws[k]);
    var i :| 0 <= i < |ws[k]| - 1 && ws[k][i] == p;
    assert !Right(mem[f := v], lists, Before(ws[k], 0, i), p);
    hide Right;
    assert !AllRight(mem[f := v], lists, ws[k], 0);
  }
}
