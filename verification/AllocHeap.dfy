/** The whole heap of `C-Allocator/src/balloc.c` as a value: memory, lists, blocks and regions, and
    the rules that tie them together. */
module AllocHeap {
  import opened AllocLists
  import opened AllocLayout
  import opened AllocMemory

  datatype Heap = Heap(mem: Memory, heads: seq<int>, b: Blocks, rs: seq<Region>, lists: seq<seq<int>>)

  /** `size_class`, for a size in words.  The smallest block, four words, comes out in class 1. */
  function ClassFrom(s: int, c: nat): (r: nat)
    requires c <= NCLASS - 1
    ensures c <= r <= NCLASS - 1
    decreases NCLASS - c
  {
    if s > 0 && c < NCLASS - 1 then ClassFrom(s / 2, c + 1) else c
  }

  function ClassOf(size: int): (c: nat)
    ensures c <= NCLASS - 1
  {
    ClassFrom(size / 4, 0)
  }

  /** A bigger block is never filed under a smaller class. */
  lemma {:induction false} ClassesGrow(s: int, t: int, c: nat)
    requires s <= t && c <= NCLASS - 1
    ensures ClassFrom(s, c) <= ClassFrom(t, c)
    decreases NCLASS - c
  {
    if s > 0 && c < NCLASS - 1 { ClassesGrow(s / 2, t / 2, c + 1); }
  }

  /** A list holds free blocks of its own class only. */
  ghost predicate FiledRight(b: Blocks, lists: seq<seq<int>>) {
    && |lists| == NCLASS
    && forall c, n :: 0 <= c < NCLASS && n in lists[c] ==> n in b && !b[n].used && ClassOf(b[n].size) == c
  }

  /** Every free block is on its list, save those in `out`, which are on none. */
  ghost predicate FiledAll(b: Blocks, lists: seq<seq<int>>, out: set<int>)
    requires |lists| == NCLASS
  {
    && (forall p :: p in b && !b[p].used && p !in out ==> p in lists[ClassOf(b[p].size)])
    && (forall p :: p in out ==> !Listed(lists, p))
  }

  ghost predicate Good(h: Heap, open: set<int>, out: set<int>) {
    && Laid(h.b, h.rs) && Tagged(h.mem, h.b, h.rs, open)
    && ListsOk(h.mem, h.heads, h.lists) && FiledRight(h.b, h.lists) && FiledAll(h.b, h.lists, out)
  }

  /** The block behind `p` is in use, if `p` is free. */
  ghost predicate Guarded(b: Blocks, out: set<int>, p: int) {
    p in b && !b[p].used && p !in out && p + b[p].size in b && p + b[p].size !in out ==> b[p + b[p].size].used
  }

  /** No two neighbours are free, save with a block in `out`. */
  ghost predicate NoFreePair(b: Blocks, out: set<int>) {
    forall p :: Guarded(b, out, p)
  }

  // ---------------------------------------------------------------- listing and unlisting

  lemma ListedIsFree(h: Heap, open: set<int>, out: set<int>, c: nat, n: int)
    requires Good(h, open, out) && c < NCLASS && n in h.lists[c]
    ensures n in h.b && !h.b[n].used && ClassOf(h.b[n].size) == c && h.b[n].size >= 4
  {
    hide Laid, Tagged, ListsOk, FiledAll;
    ProperSize(h.b, h.rs, n);
  }

  lemma NodeWordsFree(h: Heap, open: set<int>, out: set<int>, c: nat, n: int)
    requires Good(h, open, out) && c < NCLASS && n in h.lists[c]
    ensures InFree(h.b, n) && InFree(h.b, n + 1)
  {
    hide Good;
    ListedIsFree(h, open, out, c, n);
    FreeWords(h.b, n);
  }

  /** The heap after `list_insert`. */
  function Inserted(h: Heap, n: int): Heap
    requires n in h.b && |h.heads| == NCLASS && |h.lists| == NCLASS
  {
    var c := ClassOf(h.b[n].size);
    h.(mem := InsertedMem(h.mem, h.heads[c], n), heads := h.heads[c := n], lists := h.lists[c := [n] + h.lists[c]])
  }

  lemma GoodSized(h: Heap, open: set<int>, out: set<int>)
    requires Good(h, open, out)
    ensures |h.heads| == NCLASS && |h.lists| == NCLASS && Laid(h.b, h.rs)
  {}

  lemma InsertOnlyFree(h: Heap, open: set<int>, out: set<int>, n: int)
    requires Good(h, open, out) && n in h.b && !h.b[n].used
    ensures |h.heads| == NCLASS && |h.lists| == NCLASS && OnlyFreePayloads(h.mem, Inserted(h, n).mem, h.b)
  {
    hide Good, Laid, ClassOf, InFree, InPayload, ListsOk;
    GoodSized(h, open, out);
    var c := ClassOf(h.b[n].size);
    HeadOf(h, open, out, c);
    ProperSize(h.b, h.rs, n);
    FreeWords(h.b, n);
    if h.heads[c] != 0 { NodeWordsFree(h, open, out, c, h.heads[c]); }
  }

  lemma FreeWords(b: Blocks, n: int)
    requires n in b && !b[n].used && b[n].size >= 4
    ensures InFree(b, n) && InFree(b, n + 1)
  {
    assert InPayload(n, b[n], n) && InPayload(n, b[n], n + 1);
  }

  lemma HeadOf(h: Heap, open: set<int>, out: set<int>, c: nat)
    requires Good(h, open, out) && c < NCLASS
    ensures |h.heads| == NCLASS && |h.lists| == NCLASS
    ensures if h.lists[c] == [] then h.heads[c] == 0 else h.heads[c] == h.lists[c][0] && h.heads[c] > 0
  {
    hide Laid, Tagged, FiledRight, FiledAll;
    assert ListOk(h.mem, h.heads[c], h.lists[c]);
    AtFirst(h.lists[c]);
  }

  lemma InsertGood(h: Heap, open: set<int>, out: set<int>, n: int)
    requires Good(h, open, out) && n in h.b && !h.b[n].used && n in out
    ensures |h.heads| == NCLASS && |h.lists| == NCLASS
    ensures Good(Inserted(h, n), open, out - {n}) && PayloadsKept(h.mem, Inserted(h, n).mem, h.b)
  {
    hide Laid, Tagged, ListsOk, FiledRight, FiledAll, Listed, ClassOf, PayloadsKept, OnlyFreePayloads, InsertedMem;
    GoodSized(h, open, out);
    ProperSize(h.b, h.rs, n);
    OutIsUnlisted(h.b, h.lists, out, n);
    var c := ClassOf(h.b[n].size);
    InsertOnlyFree(h, open, out, n);
    LinksWritten(h.mem, Inserted(h, n).mem, h.b, h.rs, open);
    InsertKeeps(h.mem, h.heads, h.lists, n, c);
    InsertFiled(h.b, h.lists, out, n);
  }

  lemma OutIsUnlisted(b: Blocks, lists: seq<seq<int>>, out: set<int>, n: int)
    requires |lists| == NCLASS && FiledAll(b, lists, out) && n in out
    ensures !Listed(lists, n)
  {}

  lemma InsertFiled(b: Blocks, lists: seq<seq<int>>, out: set<int>, n: int)
    requires FiledRight(b, lists) && FiledAll(b, lists, out) && n in b && !b[n].used && n in out
    ensures var c := ClassOf(b[n].size); var lists' := lists[c := [n] + lists[c]];
      FiledRight(b, lists') && FiledAll(b, lists', out - {n})
  {
    hide ClassOf;
    var c := ClassOf(b[n].size);
    var lists' := lists[c := [n] + lists[c]];
    assert forall d, m :: 0 <= d < NCLASS ==> (m in lists'[d] <==> m in lists[d] || (d == c && m == n));
    forall p | p in out - {n} ensures !Listed(lists', p) {
      assert !Listed(lists, p);
    }
  }

  /** The heap after `list_remove`. */
  function Removed(h: Heap, c: nat, i: nat): Heap
    requires c < |h.lists| == |h.heads| && i < |h.lists[c]| && h.lists[c][i] in h.mem && h.lists[c][i] + 1 in h.mem
  {
    var n := h.lists[c][i];
    h.(mem := RemovedMem(h.mem, n), heads := h.heads[c := if h.mem[n + 1] == 0 then h.mem[n] else h.heads[c]],
       lists := h.lists[c := Cut(h.lists[c], i)])
  }

  lemma NodeOf(h: Heap, open: set<int>, out: set<int>, c: nat, i: nat)
    requires Good(h, open, out) && c < NCLASS && |h.lists| == NCLASS && i < |h.lists[c]|
    ensures |h.heads| == NCLASS && Linked(h.mem, h.lists[c][i], At(h.lists[c], i + 1), At(h.lists[c], i - 1))
    ensures h.lists[c][i] > 0
  {
    hide Laid, Tagged, FiledRight, FiledAll, Apart;
    assert ListOk(h.mem, h.heads[c], h.lists[c]);
    LinkedAt(h.mem, h.heads[c], h.lists[c], i);
    ApartSpread(h.lists, c);
  }

  lemma RemoveOnlyFree(h: Heap, open: set<int>, out: set<int>, c: nat, i: nat)
    requires Good(h, open, out) && c < NCLASS && |h.lists| == NCLASS && i < |h.lists[c]|
    ensures |h.heads| == NCLASS && Linked(h.mem, h.lists[c][i], At(h.lists[c], i + 1), At(h.lists[c], i - 1))
    ensures OnlyFreePayloads(h.mem, Removed(h, c, i).mem, h.b)
  {
    hide Good, InFree;
    NodeOf(h, open, out, c, i);
    var l := h.lists[c];
    if i + 1 < |l| { NodeWordsFree(h, open, out, c, l[i + 1]); NodeOf(h, open, out, c, i + 1); }
    if i > 0 { NodeWordsFree(h, open, out, c, l[i - 1]); NodeOf(h, open, out, c, i - 1); }
  }

  lemma RemoveGood(h: Heap, open: set<int>, out: set<int>, c: nat, i: nat)
    requires Good(h, open, out) && c < NCLASS && |h.lists| == NCLASS && i < |h.lists[c]|
    ensures |h.heads| == NCLASS && Linked(h.mem, h.lists[c][i], At(h.lists[c], i + 1), At(h.lists[c], i - 1))
    ensures Good(Removed(h, c, i), open, out + {h.lists[c][i]}) && PayloadsKept(h.mem, Removed(h, c, i).mem, h.b)
  {
    hide Laid, Tagged, ListsOk, FiledRight, FiledAll, PayloadsKept, OnlyFreePayloads, RemovedMem, Linked, At, Cut;
    RemoveOnlyFree(h, open, out, c, i);
    LinkedIn(h.mem, h.lists[c][i], At(h.lists[c], i + 1), At(h.lists[c], i - 1));
    LinksWritten(h.mem, Removed(h, c, i).mem, h.b, h.rs, open);
    RemoveKeeps(h.mem, h.heads, h.lists, c, i);
    ListsApart(h.mem, h.heads, h.lists);
    RemoveFiled(h.b, h.lists, out, c, i);
  }

  lemma LinkedIn(mem: Memory, n: int, next: int, prev: int)
    requires Linked(mem, n, next, prev)
    ensures n in mem && n + 1 in mem && mem[n] == next && mem[n + 1] == prev
  {}

  lemma ListsApart(mem: Memory, heads: seq<int>, lists: seq<seq<int>>)
    requires ListsOk(mem, heads, lists)
    ensures Apart(lists) && |lists| == NCLASS
  {}

  lemma RemoveFiled(b: Blocks, lists: seq<seq<int>>, out: set<int>, c: nat, i: nat)
    requires Apart(lists) && FiledRight(b, lists) && FiledAll(b, lists, out) && c < NCLASS && i < |lists[c]|
    ensures var lists' := lists[c := Cut(lists[c], i)];
      FiledRight(b, lists') && FiledAll(b, lists', out + {lists[c][i]})
  {
    hide ClassOf, Cut, Apart;
    var n := lists[c][i];
    var lists' := lists[c := Cut(lists[c], i)];
    CutApart(lists, c, i);
    assert forall d, m :: 0 <= d < NCLASS ==> (m in lists'[d] <==> m in lists[d] && m != n);
    forall p | p in out + {n} ensures !Listed(lists', p) {
      assert p != n ==> !Listed(lists, p);
    }
  }
}
