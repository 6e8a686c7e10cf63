/** The header of a dynamic block: what the encoder writes and the proof that it reads back to the
    same two codes. */
module DeflateHeader {
  import opened Options
  import opened Arithmetic
  import opened DeflateBits
  import opened DeflateTables
  import opened HuffmanCodes
  import opened CodeLengths
  import opened DeflateFormat
  import opened DeflateEncoding

  // ---------------------------------------------------------------- run-length coded lengths

  function ItemBits(it: Item, cl: seq<nat>): Bits {
    LiteralBits(cl, it.sym) + Lsb(it.extra, ExtraBits(it.sym))
  }

  function ItemsBits(items: seq<Item>, cl: seq<nat>): Bits {
    if items == [] then [] else ItemBits(items[0], cl) + ItemsBits(items[1..], cl)
  }

  lemma {:induction false} ItemsBitsMore(items: seq<Item>, it: Item, cl: seq<nat>)
    ensures ItemsBits(items + [it], cl) == ItemsBits(items, cl) + ItemBits(it, cl)
  {
    if items == [] {
      assert items + [it] == [it] && [it][1..] == [];
      assert ItemsBits([it], cl) == ItemBits(it, cl) + [];
    } else {
      assert (items + [it])[1..] == items[1..] + [it];
      ItemsBitsMore(items[1..], it, cl);
    }
  }

  lemma StandsForSome(ls: seq<nat>, it: Item)
    requires it.sym == 16 ==> ls != []
    ensures |Stands(ls, it)| >= 1
  {}

  /** Every item stands for at least one length. */
  lemma {:induction false} UnpackGrows(items: seq<Item>, i: nat, j: nat)
    requires ItemsOk(items) && i <= j <= |items|
    ensures |Unpack(items[..i])| + (j - i) <= |Unpack(items[..j])|
    decreases j
  {
    hide Unpack, Stands, ItemOk;
    if i < j {
      UnpackGrows(items, i, j - 1);
      UnpackGrows(items, 0, j - 1);
      StandsForSome(Unpack(items[..j - 1]), items[j - 1]);
      UnpackNext(items, j - 1);
    }
  }

  lemma UnpackNext(items: seq<Item>, i: nat)
    requires i < |items|
    ensures Unpack(items[..i + 1]) == Unpack(items[..i]) + Stands(Unpack(items[..i]), items[i])
  {
    UnpackMore(items[..i], items[i]);
    assert items[..i + 1] == items[..i] + [items[i]];
  }

  ghost predicate ItemsCodable(items: seq<Item>, cl: seq<nat>) {
    forall i :: 0 <= i < |items| ==> HasCode(cl, items[i].sym)
  }

  lemma ReadsItem(cl: seq<nat>, it: Item, rest: Bits, total: nat, ls: seq<nat>)
    requires HasCode(cl, it.sym) && ItemOk(it) && |ls| < total && (it.sym == 16 ==> ls != [])
    requires |ls + Stands(ls, it)| <= total
    ensures ReadLengths(cl, ItemBits(it, cl) + rest, total, ls) == ReadLengths(cl, rest, total, ls + Stands(ls, it))
  {
    hide SymbolBits, DecodeSymbol, Stands, Lsb, Take, HasCode, Pow2;
    var tail := Lsb(it.extra, ExtraBits(it.sym)) + rest;
    HasCodeInRange(cl, it.sym);
    assert ItemBits(it, cl) + rest == SymbolBits(cl, it.sym) + tail;
    ReadsSymbol(cl, it.sym, tail);
    TakeBack(it.extra, ExtraBits(it.sym), rest);
  }

  lemma HasCodeInRange(cl: seq<nat>, i: nat)
    requires HasCode(cl, i)
    ensures i < |cl|
  {}

  lemma ReadsSymbol(cl: seq<nat>, i: nat, rest: Bits)
    requires HasCode(cl, i)
    ensures i < |cl| && DecodeSymbol(cl, SymbolBits(cl, i) + rest) == Some((i, rest))
  {
    DecodeReadsBack(cl, i, rest);
  }

  /** The reading loop turns the items back into the lengths they were packed from. */
  lemma LengthsThere(cl: seq<nat>, rest: Bits, ls: seq<nat>)
    ensures ReadLengths(cl, rest, |ls|, ls) == Some((ls, rest))
  {}

  lemma {:induction false} ReadsItems(cl: seq<nat>, items: seq<Item>, i: nat, rest: Bits, total: nat)
    requires ItemsOk(items) && ItemsCodable(items, cl) && i <= |items|
    requires |Unpack(items)| == total && |Unpack(items[..i])| <= total
    ensures ReadLengths(cl, ItemsBits(items[i..], cl) + rest, total, Unpack(items[..i])) == Some((Unpack(items), rest))
    decreases |items| - i
  {
    hide ItemBits, Stands, HasCode, ItemOk, ReadLengths, Unpack;
    assert items[..|items|] == items;
    if i == |items| {
      assert ItemsBits(items[i..], cl) + rest == rest;
      LengthsThere(cl, rest, Unpack(items));
    } else {
      UnpackGrows(items, i, |items|);
      UnpackGrows(items, i + 1, |items|);
      UnpackGrows(items, 0, i);
      UnpackNext(items, i);
      var after := ItemsBits(items[i + 1..], cl) + rest;
      assert items[i..][1..] == items[i + 1..];
      assert ItemsBits(items[i..], cl) + rest == ItemBits(items[i], cl) + after;
      ReadsItem(cl, items[i], after, total, Unpack(items[..i]));
      ReadsItems(cl, items, i + 1, rest, total);
    }
  }

  // ---------------------------------------------------------------- the code-length code's lengths

  const ORDER_INDEX: seq<nat> := [3, 17, 15, 13, 11, 9, 7, 5, 4, 6, 8, 10, 12, 14, 16, 18, 0, 1, 2]

  /** Where a code-length symbol stands in the transmission order. */
  function OrderIndex(j: nat): nat
    requires j < NUM_CODELEN
  {
    ORDER_INDEX[j]
  }

  function Order(i: nat): (j: nat)
    requires i < NUM_CODELEN
    ensures j < NUM_CODELEN
  {
    CODELEN_ORDER[i]
  }

  lemma OrderInverts(i: nat)
    requires i < NUM_CODELEN
    ensures OrderIndex(Order(i)) == i && OrderIndex(i) < NUM_CODELEN && Order(OrderIndex(i)) == i
  {}

  /** The first `k` transmitted lengths in place, the rest zero. */
  function Filled(cl: seq<nat>, k: nat): (r: seq<nat>)
    requires |cl| == NUM_CODELEN
    ensures |r| == NUM_CODELEN
  {
    seq(NUM_CODELEN, j requires 0 <= j < NUM_CODELEN => if OrderIndex(j) < k then cl[j] else 0)
  }

  lemma FilledStep(cl: seq<nat>, k: nat)
    requires |cl| == NUM_CODELEN && k < NUM_CODELEN
    ensures Filled(cl, k)[Order(k) := cl[Order(k)]] == Filled(cl, k + 1)
  {
    forall j: nat | j < NUM_CODELEN ensures OrderIndex(j) == k <==> j == Order(k) {
      OrderInverts(k);
      OrderInverts(j);
    }
  }

  /** Three bits for each of the transmitted lengths from the `i`-th to the `k`-th. */
  function ClBits(cl: seq<nat>, i: nat, k: nat): Bits
    requires |cl| == NUM_CODELEN && i <= k <= NUM_CODELEN
    decreases k - i
  {
    if i == k then [] else Lsb(cl[Order(i)], 3) + ClBits(cl, i + 1, k)
  }

  lemma {:induction false} ReadsCl(cl: seq<nat>, i: nat, k: nat, rest: Bits)
    requires |cl| == NUM_CODELEN && i <= k <= NUM_CODELEN
    requires forall j :: 0 <= j < NUM_CODELEN ==> cl[j] < 8
    ensures ReadClLengths(ClBits(cl, i, k) + rest, k, i, Filled(cl, i)) == Some((Filled(cl, k), rest))
    decreases k - i
  {
    hide Filled, Lsb, Take;
    if i == k {
      assert ClBits(cl, i, k) + rest == rest;
    } else {
      var after := ClBits(cl, i + 1, k) + rest;
      assert ClBits(cl, i, k) + rest == Lsb(cl[Order(i)], 3) + after;
      EightValues();
      TakeBack(cl[Order(i)], 3, after);
      FilledStep(cl, i);
      ReadsCl(cl, i + 1, k, rest);
    }
  }

  lemma EightValues()
    ensures Pow2(3) == 8
  {}

  // ---------------------------------------------------------------- the whole header

  /** A dynamic header's contents: two codes, cut to their transmitted sizes, and how they go out. */
  datatype Header = Header(hlit: nat, hdist: nat, hclen: nat, cl: seq<nat>, items: seq<Item>)

  ghost predicate HeaderOk(h: Header, lit: seq<nat>, dist: seq<nat>) {
    && 257 <= h.hlit <= NUM_LITERALS && 1 <= h.hdist <= NUM_DISTANCES && 4 <= h.hclen <= NUM_CODELEN
    && |lit| == NUM_LITERALS && |dist| == NUM_DISTANCES
    && Accepted(lit) && Accepted(dist)
    && (forall i :: h.hlit <= i < NUM_LITERALS ==> lit[i] == 0)
    && (forall i :: h.hdist <= i < NUM_DISTANCES ==> dist[i] == 0)
    && ClCodeOk(h)
    && ItemsOk(h.items) && ItemsCodable(h.items, h.cl)
    && Unpack(h.items) == lit[..h.hlit] + dist[..h.hdist]
  }

  /** The code-length code: short lengths, accepted, and no length outside those transmitted. */
  ghost predicate ClCodeOk(h: Header) {
    && |h.cl| == NUM_CODELEN && Accepted(h.cl)
    && (forall j :: 0 <= j < NUM_CODELEN ==> h.cl[j] < 8)
    && (forall i :: h.hclen <= i < NUM_CODELEN ==> h.cl[Order(i)] == 0)
  }

  function HeaderBits(h: Header): Bits
    requires 257 <= h.hlit && 1 <= h.hdist && 4 <= h.hclen <= NUM_CODELEN && |h.cl| == NUM_CODELEN
  {
    Lsb(h.hlit - 257, 5) + Lsb(h.hdist - 1, 5) + Lsb(h.hclen - 4, 4) + ClBits(h.cl, 0, h.hclen)
    + ItemsBits(h.items, h.cl)
  }

  lemma FilledWholly(h: Header)
    requires ClCodeOk(h) && h.hclen <= NUM_CODELEN
    ensures Filled(h.cl, h.hclen) == h.cl && Filled(h.cl, 0) == NoLengths()
  {
    forall j: nat | j < NUM_CODELEN ensures Filled(h.cl, h.hclen)[j] == h.cl[j] {
      OrderInverts(j);
    }
  }

  // Symbols past the last used one may be left out of the transmitted lengths.

  lemma {:induction false} CountOfTail(s: seq<nat>, n: nat, b: nat)
    requires n <= |s| && b >= 1 && forall i :: n <= i < |s| ==> s[i] == 0
    ensures Count(s, b) == Count(s[..n], b)
  {
    if n < |s| {
      var m := |s| - 1;
      CountOfTail(s[..m], n, b);
      assert s[..m][..n] == s[..n];
    } else {
      assert s[..n] == s;
    }
  }

  lemma {:induction false} LeftOfTail(s: seq<nat>, n: nat, b: nat)
    requires n <= |s| && forall i :: n <= i < |s| ==> s[i] == 0
    ensures Left(s, b) == Left(s[..n], b) && First(s, b) == First(s[..n], b)
  {
    if b > 0 {
      LeftOfTail(s, n, b - 1);
      CountOfTail(s, n, b);
      if b > 1 { CountOfTail(s, n, b - 1); }
    }
  }

  lemma AcceptedTail(s: seq<nat>, n: nat)
    requires Accepted(s) && n <= |s| && forall i :: n <= i < |s| ==> s[i] == 0
    ensures Accepted(s[..n])
  {
    forall b | 1 <= b <= MAX_CODE_BITS ensures Left(s[..n], b) >= 0 { LeftOfTail(s, n, b); }
  }

  /** Cutting off unused symbols changes no code. */
  lemma SymbolBitsTail(s: seq<nat>, n: nat, i: nat)
    requires i < n <= |s| && forall k :: n <= k < |s| ==> s[k] == 0
    ensures SymbolBits(s, i) == SymbolBits(s[..n], i)
  {
    LeftOfTail(s, n, s[i]);
    assert s[..n][..i] == s[..i];
  }

  /** The header reads back to exactly the two codes, whatever follows it. */
  lemma ReadsHeader(h: Header, lit: seq<nat>, dist: seq<nat>, rest: Bits)
    requires HeaderOk(h, lit, dist)
    ensures ReadHeader(HeaderBits(h) + rest) == Some((lit[..h.hlit], dist[..h.hdist], rest))
  {
    hide Lsb, ClBits, ItemsBits, ReadCodes, Accepted, Value, Unpack;
    var codes := ClBits(h.cl, 0, h.hclen) + (ItemsBits(h.items, h.cl) + rest);
    var bits := HeaderBits(h) + rest;
    FieldValues(h.hlit - 257, h.hdist - 1, h.hclen - 4, codes);
    assert bits == Lsb(h.hlit - 257, 5) + Lsb(h.hdist - 1, 5) + Lsb(h.hclen - 4, 4) + codes;
    ReadsCodes(h, lit, dist, rest);
  }

  lemma FieldValues(a: nat, b: nat, c: nat, rest: Bits)
    requires a < 32 && b < 32 && c < 16
    ensures var bits := Lsb(a, 5) + Lsb(b, 5) + Lsb(c, 4) + rest;
      |bits| >= 14 && Value(bits[..5]) == a && Value(bits[5..10]) == b && Value(bits[10..14]) == c &&
      bits[14..] == rest
  {
    hide Lsb, Value, Pow2;
    var bits := Lsb(a, 5) + Lsb(b, 5) + Lsb(c, 4) + rest;
    SmallPowers();
    ValueOfLsb(a, 5);
    ValueOfLsb(b, 5);
    ValueOfLsb(c, 4);
    assert bits[..5] == Lsb(a, 5) && bits[5..10] == Lsb(b, 5) && bits[10..14] == Lsb(c, 4);
  }

  lemma ReadsCodes(h: Header, lit: seq<nat>, dist: seq<nat>, rest: Bits)
    requires HeaderOk(h, lit, dist)
    ensures ReadCodes(ClBits(h.cl, 0, h.hclen) + (ItemsBits(h.items, h.cl) + rest), h.hlit, h.hdist, h.hclen) ==
      Some((lit[..h.hlit], dist[..h.hdist], rest))
  {
    hide Filled, ReadLengths, ReadClLengths, Accepted, ItemsBits, ClBits, ItemsCodable, ItemsOk, NoLengths;
    FilledWholly(h);
    ReadsCl(h.cl, 0, h.hclen, ItemsBits(h.items, h.cl) + rest);
    assert h.items[0..] == h.items && h.items[..0] == [];
    ReadsItems(h.cl, h.items, 0, rest, h.hlit + h.hdist);
    AcceptedTail(lit, h.hlit);
    AcceptedTail(dist, h.hdist);
    var ls := lit[..h.hlit] + dist[..h.hdist];
    assert ls[..h.hlit] == lit[..h.hlit] && ls[h.hlit..] == dist[..h.hdist];
  }
}
