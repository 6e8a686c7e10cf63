/** Writing the header of a dynamic block and its cost: part of `deflate_compress` in
    `C-Deflate/src/deflate.c`. */
module HeaderEmit {
  import opened DeflateBits
  import opened DeflateTables
  import opened CodeLengths
  import opened DeflateEncoding
  import opened DeflateHeader
  import opened DeflatePlan
  import opened DeflateEmit

  /** What writing the header relies on. */
  ghost predicate Writable(h: Header) {
    HeaderShaped(h) && forall i :: 0 <= i < |h.items| ==> h.items[i].sym < NUM_CODELEN
  }

  method EmitHeader(w: BitWriter, h: Header, clCodes: seq<nat>)
    requires w.Valid() && Writable(h) && CodesFor(h.cl, clCodes)
    modifies w, w.out
    ensures w.Valid() && w.written == old(w.written) + HeaderBits(h)
  {
    hide CodesFor, ClBits, ItemsBits, Lsb;
    ghost var start := w.written;
    EmitSizes(w, h);
    EmitClLengths(w, h.cl, h.hclen);
    EmitItems(w, h.items, h.cl, clCodes);
    assert w.written == start + HeaderBits(h);
  }

  method EmitSizes(w: BitWriter, h: Header)
    requires w.Valid() && Writable(h)
    modifies w, w.out
    ensures w.Valid()
    ensures w.written == old(w.written) + (Lsb(h.hlit - 257, 5) + Lsb(h.hdist - 1, 5) + Lsb(h.hclen - 4, 4))
  {
    hide Lsb;
    w.PutBits(h.hlit - 257, 5);
    w.PutBits(h.hdist - 1, 5);
    w.PutBits(h.hclen - 4, 4);
  }

  lemma {:induction false} ClBitsMore(cl: seq<nat>, i: nat, k: nat)
    requires |cl| == NUM_CODELEN && i <= k < NUM_CODELEN
    ensures ClBits(cl, i, k + 1) == ClBits(cl, i, k) + Lsb(cl[Order(k)], 3)
    decreases k - i
  {
    hide Lsb, Order;
    var last := Lsb(cl[Order(k)], 3);
    if i < k {
      ClBitsMore(cl, i + 1, k);
      var first, middle := Lsb(cl[Order(i)], 3), ClBits(cl, i + 1, k);
      assert first + (middle + last) == (first + middle) + last;
    } else {
      assert ClBits(cl, k + 1, k + 1) == [];
      assert last + [] == [] + last;
    }
  }

  lemma {:induction false} ClBitsLength(cl: seq<nat>, i: nat, k: nat)
    requires |cl| == NUM_CODELEN && i <= k <= NUM_CODELEN
    ensures |ClBits(cl, i, k)| == 3 * (k - i)
    decreases k - i
  {
    if i < k { ClBitsLength(cl, i + 1, k); }
  }

  method EmitClLengths(w: BitWriter, cl: seq<nat>, hclen: nat)
    requires w.Valid() && |cl| == NUM_CODELEN && hclen <= NUM_CODELEN
    modifies w, w.out
    ensures w.Valid() && w.written == old(w.written) + ClBits(cl, 0, hclen)
  {
    hide ClBits, Lsb;
    ghost var start := w.written;
    NoClBits(cl);
    for i := 0 to hclen
      invariant w.Valid() && w.written == start + ClBits(cl, 0, i)
    {
      w.PutBits(cl[Order(i)], 3);
      ClBitsMore(cl, 0, i);
    }
  }

  lemma NoClBits(cl: seq<nat>)
    requires |cl| == NUM_CODELEN
    ensures ClBits(cl, 0, 0) == []
  {}

  method EmitItem(w: BitWriter, it: Item, cl: seq<nat>, clCodes: seq<nat>)
    requires w.Valid() && CodesFor(cl, clCodes) && it.sym < |cl|
    modifies w, w.out
    ensures w.Valid() && w.written == old(w.written) + ItemBits(it, cl)
  {
    hide CodesFor, LiteralBits;
    PutSymbol(w, cl, clCodes, it.sym);
    w.PutBits(it.extra, ExtraBits(it.sym));
  }

  method EmitItems(w: BitWriter, items: seq<Item>, cl: seq<nat>, clCodes: seq<nat>)
    requires w.Valid() && CodesFor(cl, clCodes)
    requires forall i :: 0 <= i < |items| ==> items[i].sym < |cl|
    modifies w, w.out
    ensures w.Valid() && w.written == old(w.written) + ItemsBits(items, cl)
  {
    hide CodesFor, ItemBits, ItemsBits;
    ghost var start := w.written;
    NoItemsBits(cl);
    assert items[..0] == [];
    for i := 0 to |items|
      invariant w.Valid() && w.written == start + ItemsBits(items[..i], cl)
    {
      EmitItem(w, items[i], cl, clCodes);
      ItemsBitsMore(items[..i], items[i], cl);
      assert items[..i + 1] == items[..i] + [items[i]];
    }
    assert items[..|items|] == items;
  }

  lemma NoItemsBits(cl: seq<nat>)
    ensures ItemsBits([], cl) == []
  {}

  /** `header_bits`: the three bits of the block head included. */
  method HeaderCost(h: Header) returns (bits: nat)
    requires Writable(h)
    ensures bits == 3 + |HeaderBits(h)|
  {
    hide ItemBits, ItemsBits, ClBits, LiteralBits;
    ClBitsLength(h.cl, 0, h.hclen);
    NoItemsBits(h.cl);
    bits := 3 + 5 + 5 + 4 + h.hclen * 3;
    assert h.items[..0] == [];
    for i := 0 to |h.items|
      invariant bits == 17 + 3 * h.hclen + |ItemsBits(h.items[..i], h.cl)|
    {
      ItemCost(h.items[i], h.cl);
      ItemsBitsMore(h.items[..i], h.items[i], h.cl);
      assert h.items[..i + 1] == h.items[..i] + [h.items[i]];
      bits := bits + h.cl[h.items[i].sym] + ExtraBits(h.items[i].sym);
    }
    assert h.items[..|h.items|] == h.items;
  }

  lemma ItemCost(it: Item, cl: seq<nat>)
    requires it.sym < |cl|
    ensures |ItemBits(it, cl)| == cl[it.sym] + ExtraBits(it.sym)
  {
    CostOfSymbol(cl, it.sym);
  }
}
