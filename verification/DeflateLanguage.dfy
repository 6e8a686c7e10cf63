/** The decoder's language: the streams that decompress are exactly those made of well-formed blocks,
    and everything else is refused. */
module DeflateLanguage {
  import opened Options
  import opened Arithmetic
  import opened DeflateBits
  import opened DeflateTables
  import opened HuffmanCodes
  import opened CodeLengths
  import opened Lz77
  import opened DeflateFormat
  import opened DeflateEncoding
  import opened DeflateHeader
  import opened DeflateFixed
  import opened DeflatePlan

  // ---------------------------------------------------------------- symbols

  /** A symbol that is read was written: its code is what stood there. */
  lemma DecodeSound(s: seq<nat>, bits: Bits)
    requires DecodeSymbol(s, bits).Some?
    ensures var (i, rest) := DecodeSymbol(s, bits).value; bits == SymbolBits(s, i) + rest
  {
    hide Walk;
    assert Msb(0, 0) == [];
    WalkSound(s, bits, 1, 0, 0);
    assert [] + bits == bits;
  }

  /** `v` is the number the `len - 1` bits before spell. */
  lemma {:induction false} WalkSound(s: seq<nat>, bits: Bits, len: nat, d: nat, v: nat)
    requires len >= 1 && 2 * v == d + First(s, len) && Walk(s, bits, len, d).Some?
    ensures var (i, rest) := Walk(s, bits, len, d).value; Msb(v, len - 1) + bits == SymbolBits(s, i) + rest
    decreases |bits|
  {
    hide Count, Nth, Rank, Msb;
    var b := if bits[0] then 1 else 0;
    var d' := d + b;
    OneMoreBit(v, b, len, bits);
    if d' < Count(s, len) {
      assert Code(s, Nth(s, len, d')) == 2 * v + b;
    } else {
      WalkSound(s, bits[1..], len + 1, 2 * (d' - Count(s, len)), 2 * v + b);
    }
  }

  lemma OneMoreBit(v: nat, b: nat, len: nat, bits: Bits)
    requires len >= 1 && bits != [] && b == if bits[0] then 1 else 0
    ensures Msb(v, len - 1) + bits == Msb(2 * v + b, len) + bits[1..]
  {
    assert (2 * v + b) / 2 == v && ((2 * v + b) % 2 == 1 <==> bits[0]);
    assert bits == [bits[0]] + bits[1..];
  }

  lemma TakeSound(bits: Bits, n: nat)
    requires Take(bits, n).Some?
    ensures var (v, rest) := Take(bits, n).value; v < Pow2(n) && bits == Lsb(v, n) + rest
  {
    hide Value, Lsb, Pow2;
    LsbOfValue(bits[..n]);
    assert bits == bits[..n] + bits[n..];
  }

  lemma Grouped(a: Bits, b: Bits, c: Bits)
    ensures a + (b + c) == a + b + c && (a + b)[|a|..] == b
  {}

  // ---------------------------------------------------------------- the body of a compressed block

  /** A literal, or a match as it is coded: length and distance rows with the values of their extra
      bits.  Two codings of one match are two pieces. */
  datatype Piece = Plain(b: nat) | Back(lc: nat, lx: nat, dc: nat, dx: nat)

  /** The piece has codes, its fields fit, and it reaches no further back than the output. */
  ghost predicate PieceOk(p: Piece, lit: seq<nat>, dist: seq<nat>, written: nat) {
    match p
    case Plain(b) => b < 256 && HasCode(lit, b)
    case Back(lc, lx, dc, dx) =>
      && lc < 29 && HasCode(lit, 257 + lc) && lx < Pow2(LengthExtra(lc))
      && dc < 30 && HasCode(dist, dc) && dx < Pow2(DistExtra(dc))
      && DistBase(dc) + dx <= written
  }

  ghost function PieceBits(p: Piece, lit: seq<nat>, dist: seq<nat>): Bits {
    match p
    case Plain(b) => LiteralBits(lit, b)
    case Back(lc, lx, dc, dx) =>
      if lc >= 29 || dc >= 30 then []
      else LiteralBits(lit, 257 + lc) +
           (Lsb(lx, LengthExtra(lc)) + (LiteralBits(dist, dc) + Lsb(dx, DistExtra(dc))))
  }

  function PieceOut(p: Piece, out: seq<byte>): (r: seq<byte>)
    ensures |r| >= |out|
  {
    match p
    case Plain(b) => if b < 256 then out + [b] else out
    case Back(lc, lx, dc, dx) =>
      if lc >= 29 || dc >= 30 then out else Copy(out, LengthBase(lc) + lx, DistBase(dc) + dx)
  }

  ghost predicate PiecesOk(ps: seq<Piece>, lit: seq<nat>, dist: seq<nat>, out: seq<byte>)
    decreases |ps|
  {
    ps == [] || (PieceOk(ps[0], lit, dist, |out|) && PiecesOk(ps[1..], lit, dist, PieceOut(ps[0], out)))
  }

  ghost function PiecesBits(ps: seq<Piece>, lit: seq<nat>, dist: seq<nat>): Bits {
    if ps == [] then [] else PieceBits(ps[0], lit, dist) + PiecesBits(ps[1..], lit, dist)
  }

  function PiecesOut(ps: seq<Piece>, out: seq<byte>): seq<byte>
    decreases |ps|
  {
    if ps == [] then out else PiecesOut(ps[1..], PieceOut(ps[0], out))
  }

  /** The pieces, the end mark, and what follows. */
  ghost function BodyBits(ps: seq<Piece>, lit: seq<nat>, dist: seq<nat>, rest: Bits): Bits {
    PiecesBits(ps, lit, dist) + (LiteralBits(lit, END_OF_BLOCK) + rest)
  }

  ghost predicate CodesOk(lit: seq<nat>, dist: seq<nat>) {
    Accepted(lit) && Accepted(dist) && |lit| <= NUM_LITERALS && |dist| <= NUM_DISTANCES
  }

  lemma SymbolRead(s: seq<nat>, bits: Bits)
    requires Accepted(s) && DecodeSymbol(s, bits).Some?
    ensures var (i, rest) := DecodeSymbol(s, bits).value;
      HasCode(s, i) && i < |s| && bits == LiteralBits(s, i) + rest
  {
    DecodeSound(s, bits);
    AcceptedHasCode(s, DecodeSymbol(s, bits).value.0);
    hide DecodeSymbol, SymbolBits;
  }

  /** A match that is read. */
  lemma MatchSound(lc: nat, lit: seq<nat>, dist: seq<nat>, bits: Bits, out: seq<byte>) returns (p: Piece)
    requires CodesOk(lit, dist) && lc < 29 && HasCode(lit, 257 + lc) && ReadMatch(lc, dist, bits, |out|).Some?
    ensures var (length, distance, rest) := ReadMatch(lc, dist, bits, |out|).value;
      && PieceOk(p, lit, dist, |out|) && PieceOut(p, out) == Copy(out, length, distance)
      && PieceBits(p, lit, dist) + rest == LiteralBits(lit, 257 + lc) + bits
  {
    hide DecodeSymbol, Accepted, HasCode, LiteralBits, Take, Lsb, LengthBase, LengthExtra, DistBase, DistExtra, Copy;
    TakeSound(bits, LengthExtra(lc));
    var (lx, after) := Take(bits, LengthExtra(lc)).value;
    SymbolRead(dist, after);
    var (dc, after') := DecodeSymbol(dist, after).value;
    TakeSound(after', DistExtra(dc));
    var (dx, rest) := Take(after', DistExtra(dc)).value;
    p := Back(lc, lx, dc, dx);
    var head, tail := LiteralBits(lit, 257 + lc), LiteralBits(dist, dc) + Lsb(dx, DistExtra(dc));
    assert after == tail + rest;
    assert head + (Lsb(lx, LengthExtra(lc)) + tail) + rest == head + (Lsb(lx, LengthExtra(lc)) + (tail + rest));
  }

  /** Whatever a block is read as, it consists of good pieces and an end mark. */
  lemma {:induction false} BodySound(lit: seq<nat>, dist: seq<nat>, bits: Bits, out: seq<byte>)
    returns (ps: seq<Piece>)
    requires CodesOk(lit, dist) && ReadTokens(lit, dist, bits, out).Some?
    ensures var (out', rest) := ReadTokens(lit, dist, bits, out).value;
      && PiecesOk(ps, lit, dist, out) && HasCode(lit, END_OF_BLOCK)
      && out' == PiecesOut(ps, out) && bits == BodyBits(ps, lit, dist, rest)
    decreases |bits|
  {
    hide DecodeSymbol, Accepted, HasCode, LiteralBits, ReadMatch, Copy, PieceOk, PieceBits;
    SymbolRead(lit, bits);
    var (sym, after) := DecodeSymbol(lit, bits).value;
    if sym == END_OF_BLOCK {
      ps := [];
      assert [] + bits == bits;
      return;
    }
    var p;
    if sym < 256 {
      p := Plain(sym);
      PlainSound(sym, lit, dist, after, out);
      ps := BodySound(lit, dist, after, out + [sym]);
    } else {
      p := MatchSound(sym - 257, lit, dist, after, out);
      var (length, distance, after') := ReadMatch(sym - 257, dist, after, |out|).value;
      ps := BodySound(lit, dist, after', Copy(out, length, distance));
      after := after';
    }
    var end := LiteralBits(lit, END_OF_BLOCK) + ReadTokens(lit, dist, bits, out).value.1;
    assert bits == PieceBits(p, lit, dist) + (PiecesBits(ps, lit, dist) + end);
    PiecesCons(p, ps, lit, dist, out, end);
    ps := [p] + ps;
  }

  lemma PlainSound(b: nat, lit: seq<nat>, dist: seq<nat>, rest: Bits, out: seq<byte>)
    requires b < 256 && HasCode(lit, b)
    ensures PieceOk(Plain(b), lit, dist, |out|) && PieceOut(Plain(b), out) == out + [b]
    ensures PieceBits(Plain(b), lit, dist) + rest == LiteralBits(lit, b) + rest
  {}

  lemma PiecesCons(p: Piece, ps: seq<Piece>, lit: seq<nat>, dist: seq<nat>, out: seq<byte>, end: Bits)
    ensures PiecesOk([p] + ps, lit, dist, out) <==>
            PieceOk(p, lit, dist, |out|) && PiecesOk(ps, lit, dist, PieceOut(p, out))
    ensures PiecesOut([p] + ps, out) == PiecesOut(ps, PieceOut(p, out))
    ensures PiecesBits([p] + ps, lit, dist) + end == PieceBits(p, lit, dist) + (PiecesBits(ps, lit, dist) + end)
  {
    hide PieceOk, PieceBits, PieceOut;
    assert ([p] + ps)[1..] == ps;
  }

  /** And good pieces with an end mark are read. */
  lemma PieceRead(p: Piece, lit: seq<nat>, dist: seq<nat>, rest: Bits, out: seq<byte>)
    requires PieceOk(p, lit, dist, |out|)
    ensures ReadTokens(lit, dist, PieceBits(p, lit, dist) + rest, out) ==
            ReadTokens(lit, dist, rest, PieceOut(p, out))
  {
    hide LengthBase, LengthExtra, DistBase, DistExtra, SymbolBits, DecodeSymbol, Lsb, Pow2, Copy, ReadMatch, PieceBits,
         ReadTokens;
    match p
    case Plain(b) => PlainRead(b, lit, dist, rest, out);
    case Back(lc, lx, dc, dx) =>
      var after := Lsb(lx, LengthExtra(lc)) + (SymbolBits(dist, dc) + (Lsb(dx, DistExtra(dc)) + rest));
      BackBits(p, lit, dist, rest);
      DecodeReadsBack(lit, 257 + lc, after);
      MatchRead(lc, lx, dist, dc, dx, rest, |out|);
      TokenStep(lit, dist, PieceBits(p, lit, dist) + rest, lc, after, out);
  }

  lemma PlainRead(b: nat, lit: seq<nat>, dist: seq<nat>, rest: Bits, out: seq<byte>)
    requires b < 256 && HasCode(lit, b)
    ensures ReadTokens(lit, dist, PieceBits(Plain(b), lit, dist) + rest, out) == ReadTokens(lit, dist, rest, out + [b])
  {
    hide SymbolBits, DecodeSymbol;
    DecodeReadsBack(lit, b, rest);
  }

  lemma BackBits(p: Piece, lit: seq<nat>, dist: seq<nat>, rest: Bits)
    requires p.Back? && p.lc < 29 && p.dc < 30 && 257 + p.lc < |lit| && p.dc < |dist|
    ensures PieceBits(p, lit, dist) + rest == SymbolBits(lit, 257 + p.lc) +
      (Lsb(p.lx, LengthExtra(p.lc)) + (SymbolBits(dist, p.dc) + (Lsb(p.dx, DistExtra(p.dc)) + rest)))
  {
    hide SymbolBits, Lsb, LengthExtra, DistExtra;
    var a, b, c, d := SymbolBits(lit, 257 + p.lc), Lsb(p.lx, LengthExtra(p.lc)), SymbolBits(dist, p.dc),
      Lsb(p.dx, DistExtra(p.dc));
    Grouped(c, d, rest);
    Grouped(b, c + d, rest);
    Grouped(a, b + (c + d), rest);
  }

  lemma TokenStep(lit: seq<nat>, dist: seq<nat>, bits: Bits, lc: nat, after: Bits, out: seq<byte>)
    requires lc < 29 && DecodeSymbol(lit, bits) == Some((257 + lc, after)) && ReadMatch(lc, dist, after, |out|).Some?
    ensures var (length, distance, rest) := ReadMatch(lc, dist, after, |out|).value;
      ReadTokens(lit, dist, bits, out) == ReadTokens(lit, dist, rest, Copy(out, length, distance))
  {
    hide DecodeSymbol, ReadMatch, Copy;
  }

  lemma MatchRead(lc: nat, lx: nat, dist: seq<nat>, dc: nat, dx: nat, rest: Bits, written: nat)
    requires lc < 29 && lx < Pow2(LengthExtra(lc)) && dc < 30 && dx < Pow2(DistExtra(dc))
    requires HasCode(dist, dc) && DistBase(dc) + dx <= written
    ensures ReadMatch(lc, dist, Lsb(lx, LengthExtra(lc)) + (SymbolBits(dist, dc) + (Lsb(dx, DistExtra(dc)) + rest)),
                      written) == Some((LengthBase(lc) + lx, DistBase(dc) + dx, rest))
  {
    hide DistBase, DistExtra, LengthBase, LengthExtra, SymbolBits, DecodeSymbol, Lsb, Pow2, Take;
    var tail := Lsb(dx, DistExtra(dc)) + rest;
    TakeBack(lx, LengthExtra(lc), SymbolBits(dist, dc) + tail);
    DecodeReadsBack(dist, dc, tail);
    TakeBack(dx, DistExtra(dc), rest);
  }

  lemma {:induction false} BodyRead(ps: seq<Piece>, lit: seq<nat>, dist: seq<nat>, rest: Bits, out: seq<byte>)
    requires PiecesOk(ps, lit, dist, out) && HasCode(lit, END_OF_BLOCK)
    ensures ReadTokens(lit, dist, BodyBits(ps, lit, dist, rest), out) == Some((PiecesOut(ps, out), rest))
    decreases |ps|
  {
    hide ReadTokens, PieceOk, PieceBits, PieceOut, LiteralBits, HasCode;
    var end := LiteralBits(lit, END_OF_BLOCK) + rest;
    if ps == [] {
      ReadsEnd(lit, dist, rest, out);
      assert BodyBits(ps, lit, dist, rest) == end;
    } else {
      var after := PiecesBits(ps[1..], lit, dist) + end;
      assert BodyBits(ps, lit, dist, rest) == PieceBits(ps[0], lit, dist) + after;
      PieceRead(ps[0], lit, dist, after, out);
      BodyRead(ps[1..], lit, dist, rest, PieceOut(ps[0], out));
    }
  }

  // ---------------------------------------------------------------- the header of a dynamic block

  /** Items that give `total` lengths, the last of them perhaps more than are needed. */
  ghost predicate ItemsReach(items: seq<Item>, total: nat) {
    && items != [] && |Unpack(items[..|items| - 1])| < total <= |Unpack(items)|
  }

  /** A header that gives these two codes. */
  ghost predicate FormOk(h: Header, lit: seq<nat>, dist: seq<nat>) {
    && 257 <= h.hlit <= NUM_LITERALS && 1 <= h.hdist <= NUM_DISTANCES && 4 <= h.hclen <= NUM_CODELEN
    && ClCodeOk(h) && ItemsOk(h.items) && ItemsCodable(h.items, h.cl)
    && ItemsReach(h.items, h.hlit + h.hdist)
    && |lit| == h.hlit && |dist| == h.hdist && lit + dist == Unpack(h.items)[..h.hlit + h.hdist]
    && Accepted(lit) && Accepted(dist)
  }

  lemma ItemSound(cl: seq<nat>, bits: Bits) returns (it: Item)
    requires Accepted(cl) && |cl| == NUM_CODELEN && DecodeSymbol(cl, bits).Some?
    requires Take(DecodeSymbol(cl, bits).value.1, ExtraBits(DecodeSymbol(cl, bits).value.0)).Some?
    ensures var (sym, after) := DecodeSymbol(cl, bits).value;
      var (x, rest) := Take(after, ExtraBits(sym)).value;
      it == Item(sym, x) && ItemOk(it) && HasCode(cl, sym) && bits == ItemBits(it, cl) + rest
  {
    hide DecodeSymbol, Accepted, HasCode, LiteralBits, Take, Lsb;
    SymbolRead(cl, bits);
    var (sym, after) := DecodeSymbol(cl, bits).value;
    CodeInRange(cl, bits);
    TakeSound(after, ExtraBits(sym));
    var (x, rest) := Take(after, ExtraBits(sym)).value;
    it := Item(sym, x);
    assert LiteralBits(cl, sym) + (Lsb(x, ExtraBits(sym)) + rest) == ItemBits(it, cl) + rest;
  }

  lemma CodeInRange(s: seq<nat>, bits: Bits)
    requires DecodeSymbol(s, bits).Some?
    ensures DecodeSymbol(s, bits).value.0 < |s|
  {}

  /** Lengths that are read come from good items. */
  lemma {:induction false} LengthsSound(cl: seq<nat>, bits: Bits, total: nat, before: seq<Item>)
    returns (more: seq<Item>)
    requires Accepted(cl) && |cl| == NUM_CODELEN && ItemsOk(before) && ItemsCodable(before, cl)
    requires |Unpack(before)| < total && (before == [] <==> Unpack(before) == [])
    requires ReadLengths(cl, bits, total, Unpack(before)).Some?
    ensures var (ls, rest) := ReadLengths(cl, bits, total, Unpack(before)).value;
      && ItemsOk(before + more) && ItemsCodable(before + more, cl) && ItemsReach(before + more, total)
      && ls == Unpack(before + more)[..total] && bits == ItemsBits(more, cl) + rest
    decreases |bits|
  {
    hide DecodeSymbol, Accepted, HasCode, Take, ItemBits, Stands, ItemOk;
    var it := ItemSound(cl, bits);
    var (sym, after) := DecodeSymbol(cl, bits).value;
    var rest := Take(after, ExtraBits(sym)).value.1;
    UnpackMore(before, it);
    StandsForSome(Unpack(before), it);
    var items := before + [it];
    assert items[..|items| - 1] == before;
    ItemsGrow(before, it, cl);
    if |Unpack(items)| >= total {
      more := [it];
      OneItem(it, cl);
      ReadsNoMore(cl, rest, total, Unpack(items));
    } else {
      more := LengthsSound(cl, rest, total, items);
      hide ReadLengths;
      assert items + more == before + ([it] + more);
      assert ([it] + more)[1..] == more;
      Grouped(ItemBits(it, cl), ItemsBits(more, cl), ReadLengths(cl, bits, total, Unpack(before)).value.1);
      more := [it] + more;
    }
  }

  lemma OneItem(it: Item, cl: seq<nat>)
    ensures ItemsBits([it], cl) == ItemBits(it, cl)
  {
    hide ItemBits;
    assert [it][1..] == [];
    assert ItemBits(it, cl) + [] == ItemBits(it, cl);
  }

  lemma ReadsNoMore(cl: seq<nat>, bits: Bits, total: nat, ls: seq<nat>)
    requires |ls| >= total
    ensures ReadLengths(cl, bits, total, Capped(ls, total)) == Some((ls[..total], bits))
  {
    assert |ls| == total ==> ls[..total] == ls;
  }

  lemma ItemsGrow(before: seq<Item>, it: Item, cl: seq<nat>)
    requires ItemsOk(before) && ItemsCodable(before, cl) && ItemOk(it) && HasCode(cl, it.sym)
    requires before == [] ==> it.sym != 16
    ensures ItemsOk(before + [it]) && ItemsCodable(before + [it], cl)
  {}

  /** `r` is `cl` but for the lengths transmitted from the `i`-th to the `k`-th, and those are short. */
  ghost predicate Agrees(r: seq<nat>, cl: seq<nat>, i: nat, k: nat) {
    && |r| == |cl| == NUM_CODELEN
    && (forall n :: 0 <= n < NUM_CODELEN && (n < i || n >= k) ==> r[Order(n)] == cl[Order(n)])
    && (forall n :: i <= n < k && n < NUM_CODELEN ==> r[Order(n)] < 8)
  }

  lemma AgreesMore(r: seq<nat>, cl: seq<nat>, i: nat, k: nat, v: nat)
    requires |cl| == NUM_CODELEN && i < k <= NUM_CODELEN && v < 8 && Agrees(r, cl[Order(i) := v], i + 1, k)
    ensures Agrees(r, cl, i, k) && r[Order(i)] == v
  {
    hide Order;
    OrdersApart(i);
    assert r[Order(i)] == cl[Order(i) := v][Order(i)];
  }

  /** The transmitted lengths of the code-length code, read from the `i`-th on. */
  lemma {:induction false} ClSound(bits: Bits, k: nat, i: nat, cl: seq<nat>)
    requires i <= k <= NUM_CODELEN && |cl| == NUM_CODELEN && ReadClLengths(bits, k, i, cl).Some?
    ensures var (r, rest) := ReadClLengths(bits, k, i, cl).value;
      Agrees(r, cl, i, k) && bits == ClBits(r, i, k) + rest
    decreases k - i
  {
    hide Take, Lsb, Agrees;
    if i < k {
      TakeSound(bits, 3);
      EightValues();
      var (v, after) := Take(bits, 3).value;
      var cl' := cl[Order(i) := v];
      ClSound(after, k, i + 1, cl');
      var (r, rest) := ReadClLengths(after, k, i + 1, cl').value;
      AgreesMore(r, cl, i, k, v);
      hide ReadClLengths;
      Grouped(Lsb(v, 3), ClBits(r, i + 1, k), rest);
    } else {
      AgreesSelf(cl, i);
      assert ClBits(cl, i, k) + bits == bits;
    }
  }

  lemma AgreesSelf(cl: seq<nat>, i: nat)
    requires |cl| == NUM_CODELEN
    ensures Agrees(cl, cl, i, i)
  {}

  lemma OrdersApart(i: nat)
    requires i < NUM_CODELEN
    ensures forall n :: 0 <= n < NUM_CODELEN && n != i ==> Order(n) != Order(i)
  {
    forall n: nat | n < NUM_CODELEN && n != i ensures Order(n) != Order(i) {
      OrderInverts(n);
      OrderInverts(i);
    }
  }

  lemma ClCodeSound(bits: Bits, hclen: nat)
    requires hclen <= NUM_CODELEN && ReadClLengths(bits, hclen, 0, NoLengths()).Some?
    ensures var (cl, rest) := ReadClLengths(bits, hclen, 0, NoLengths()).value;
      && |cl| == NUM_CODELEN && bits == ClBits(cl, 0, hclen) + rest
      && (forall j :: 0 <= j < NUM_CODELEN ==> cl[j] < 8)
      && (forall i :: hclen <= i < NUM_CODELEN ==> cl[Order(i)] == 0)
  {
    hide ReadClLengths, ClBits;
    ClSound(bits, hclen, 0, NoLengths());
    var (cl, rest) := ReadClLengths(bits, hclen, 0, NoLengths()).value;
    forall j | 0 <= j < NUM_CODELEN ensures cl[j] < 8 {
      OrderInverts(j);
      var n := OrderIndex(j);
      assert cl[Order(n)] < 8;
    }
  }

  /** Whatever a header is read as, it is a good one. */
  lemma HeaderSound(bits: Bits) returns (h: Header)
    requires ReadHeader(bits).Some?
    ensures var (lit, dist, rest) := ReadHeader(bits).value;
      FormOk(h, lit, dist) && bits == HeaderBits(h) + rest
  {
    hide Value, Accepted, ReadLengths, ReadClLengths, ClBits, ItemsBits, Lsb, ItemsReach, ItemsOk, ItemsCodable, Unpack;
    var hlit, hdist, hclen := Value(bits[..5]) + 257, Value(bits[5..10]) + 1, Value(bits[10..14]) + 4;
    FieldsBack(bits);
    ClCodeSound(bits[14..], hclen);
    var (cl, after) := ReadClLengths(bits[14..], hclen, 0, NoLengths()).value;
    NoItems(cl);
    var items := LengthsSound(cl, after, hlit + hdist, []);
    assert [] + items == items;
    var (ls, rest) := ReadLengths(cl, after, hlit + hdist, []).value;
    h := Header(hlit, hdist, hclen, cl, items);
    assert ls[..hlit] + ls[hlit..] == ls;
    var fields := Lsb(hlit - 257, 5) + Lsb(hdist - 1, 5) + Lsb(hclen - 4, 4);
    assert bits == fields + (ClBits(cl, 0, hclen) + (ItemsBits(items, cl) + rest));
    assert HeaderBits(h) + rest == fields + (ClBits(cl, 0, hclen) + (ItemsBits(items, cl) + rest));
  }

  lemma NoItems(cl: seq<nat>)
    ensures Unpack([]) == [] && ItemsOk([]) && ItemsCodable([], cl)
  {}

  lemma FieldsBack(bits: Bits)
    requires |bits| >= 14
    ensures Value(bits[..5]) < 32 && Value(bits[5..10]) < 32 && Value(bits[10..14]) < 16
    ensures bits == Lsb(Value(bits[..5]), 5) + Lsb(Value(bits[5..10]), 5) + Lsb(Value(bits[10..14]), 4) + bits[14..]
  {
    hide Value, Lsb, Pow2;
    SmallPowers();
    LsbOfValue(bits[..5]);
    LsbOfValue(bits[5..10]);
    LsbOfValue(bits[10..14]);
    assert bits == bits[..5] + bits[5..10] + bits[10..14] + bits[14..];
  }

  /** One item more is read, as far as there is room. */
  lemma ItemRead(cl: seq<nat>, it: Item, rest: Bits, total: nat, ls: seq<nat>)
    requires HasCode(cl, it.sym) && ItemOk(it) && |ls| < total && (it.sym == 16 ==> ls != [])
    ensures ReadLengths(cl, ItemBits(it, cl) + rest, total, ls) ==
            ReadLengths(cl, rest, total, Capped(ls + Stands(ls, it), total))
  {
    hide SymbolBits, DecodeSymbol, Stands, Lsb, Take, HasCode, Pow2;
    var tail := Lsb(it.extra, ExtraBits(it.sym)) + rest;
    HasCodeInRange(cl, it.sym);
    assert ItemBits(it, cl) + rest == SymbolBits(cl, it.sym) + tail;
    ReadsSymbol(cl, it.sym, tail);
    TakeBack(it.extra, ExtraBits(it.sym), rest);
  }

  lemma {:induction false} LengthsRead(cl: seq<nat>, items: seq<Item>, i: nat, rest: Bits, total: nat)
    requires ItemsOk(items) && ItemsCodable(items, cl) && ItemsReach(items, total) && i < |items|
    requires |Unpack(items[..i])| < total
    ensures ReadLengths(cl, ItemsBits(items[i..], cl) + rest, total, Unpack(items[..i])) ==
            Some((Unpack(items)[..total], rest))
    decreases |items| - i
  {
    hide ItemBits, Stands, HasCode, ItemOk, ReadLengths, Unpack;
    var n := |items| - 1;
    UnpackGrows(items, i, n);
    UnpackGrows(items, 0, i);
    UnpackNext(items, i);
    var after := ItemsBits(items[i + 1..], cl) + rest;
    assert items[i..][1..] == items[i + 1..];
    assert ItemsBits(items[i..], cl) + rest == ItemBits(items[i], cl) + after;
    ItemRead(cl, items[i], after, total, Unpack(items[..i]));
    if i == n {
      assert items[..n + 1] == items && after == rest;
      ReadsNoMore(cl, rest, total, Unpack(items));
    } else {
      UnpackGrows(items, i + 1, n);
      LengthsRead(cl, items, i + 1, rest, total);
    }
  }

  /** And a good header is read as the two codes it gives. */
  lemma HeaderRead(h: Header, lit: seq<nat>, dist: seq<nat>, rest: Bits)
    requires FormOk(h, lit, dist)
    ensures ReadHeader(HeaderBits(h) + rest) == Some((lit, dist, rest))
  {
    hide Lsb, ClBits, ItemsBits, Accepted, Value, Unpack, ReadLengths, ReadClLengths, Filled, ItemsOk, ItemsCodable,
         NoLengths;
    var codes := ClBits(h.cl, 0, h.hclen) + (ItemsBits(h.items, h.cl) + rest);
    FieldValues(h.hlit - 257, h.hdist - 1, h.hclen - 4, codes);
    assert HeaderBits(h) + rest == Lsb(h.hlit - 257, 5) + Lsb(h.hdist - 1, 5) + Lsb(h.hclen - 4, 4) + codes;
    FilledWholly(h);
    ReadsCl(h.cl, 0, h.hclen, ItemsBits(h.items, h.cl) + rest);
    assert h.items[0..] == h.items && h.items[..0] == [];
    NoItems(h.cl);
    LengthsRead(h.cl, h.items, 0, rest, h.hlit + h.hdist);
    var ls := lit + dist;
    assert ls[..h.hlit] == lit && ls[h.hlit..] == dist;
  }

  // ---------------------------------------------------------------- blocks

  datatype Block =
    | Stored(pad: Bits, bytes: seq<byte>)
    | Fixed(ps: seq<Piece>)
    | Dynamic(h: Header, lit: seq<nat>, dist: seq<nat>, ps: seq<Piece>)

  function KindOf(b: Block): (k: nat)
    ensures k < 3
  {
    match b
    case Stored(_, _) => 0
    case Fixed(_) => 1
    case Dynamic(_, _, _, _) => 2
  }

  /** The block may follow `out` and stand before `rest`: the padding of a stored one ends a byte. */
  ghost predicate BlockOk(b: Block, out: seq<byte>, rest: Bits) {
    match b
    case Stored(pad, bytes) => |bytes| <= 65535 && |rest| % 8 == 0 && |pad| < 8
    case Fixed(ps) => PiecesOk(ps, FixedLit(), FixedDist(), out)
    case Dynamic(h, lit, dist, ps) => FormOk(h, lit, dist) && HasCode(lit, END_OF_BLOCK) && PiecesOk(ps, lit, dist, out)
  }

  /** The block after its three header bits, and what follows. */
  ghost function BlockBody(b: Block, rest: Bits): Bits {
    match b
    case Stored(pad, bytes) =>
      if |bytes| > 65535 then [] else pad + (StoredLengths(|bytes|) + (ByteBits(bytes) + rest))
    case Fixed(ps) => BodyBits(ps, FixedLit(), FixedDist(), rest)
    case Dynamic(h, lit, dist, ps) =>
      if HeaderShaped(h) then HeaderBits(h) + BodyBits(ps, lit, dist, rest) else []
  }

  function BlockOut(b: Block, out: seq<byte>): seq<byte> {
    match b
    case Stored(_, bytes) => out + bytes
    case Fixed(ps) => PiecesOut(ps, out)
    case Dynamic(_, _, _, ps) => PiecesOut(ps, out)
  }

  lemma ByteInFront(b: byte, bytes: seq<byte>)
    ensures ByteBits([b] + bytes) == Lsb(b, 8) + ByteBits(bytes)
  {
    assert ([b] + bytes)[1..] == bytes;
  }

  lemma {:induction false} BytesSound(bits: Bits, n: nat, out: seq<byte>) returns (bytes: seq<byte>)
    requires ReadBytes(bits, n, out).Some?
    ensures |bytes| == n
    ensures var (out', rest) := ReadBytes(bits, n, out).value; out' == out + bytes && bits == ByteBits(bytes) + rest
    decreases n
  {
    hide Take, Lsb;
    if n == 0 {
      bytes := [];
      assert out + [] == out && ByteBits([]) + bits == bits;
    } else {
      TakeSound(bits, 8);
      var (v, after) := Take(bits, 8).value;
      EightBits(v);
      bytes := BytesSound(after, n - 1, out + [v]);
      var rest := ReadBytes(bits, n, out).value.1;
      ByteInFront(v, bytes);
      hide ByteBits;
      Grouped(Lsb(v, 8), ByteBits(bytes), rest);
      assert out + [v] + bytes == out + ([v] + bytes);
      bytes := [v] + bytes;
    }
  }

  lemma StoredSound(bits: Bits, out: seq<byte>) returns (b: Block)
    requires ReadStored(bits, out).Some?
    ensures var (out', rest) := ReadStored(bits, out).value;
      b.Stored? && BlockOk(b, out, rest) && out' == BlockOut(b, out) && bits == BlockBody(b, rest)
  {
    hide Value, ReadBytes, Lsb, ByteBits, Pow2;
    var k := |bits| % 8;
    var aligned := bits[k..];
    var len := Value(aligned[..16]);
    SmallPowers();
    Pow2Adds(8, 8);
    LsbOfValue(aligned[..16]);
    LsbOfValue(aligned[16..32]);
    var bytes := BytesSound(aligned[32..], len, out);
    var rest := ReadBytes(aligned[32..], len, out).value.1;
    b := Stored(bits[..k], bytes);
    assert aligned == aligned[..16] + aligned[16..32] + aligned[32..];
    assert aligned == StoredLengths(len) + (ByteBits(bytes) + rest);
    assert bits == bits[..k] + aligned;
    WholeBytesLeft(|bits|, k, |bytes|, |rest|);
  }

  lemma WholeBytesLeft(n: nat, k: nat, bytes: nat, rest: nat)
    requires k == n % 8 && n == k + 32 + 8 * bytes + rest
    ensures rest % 8 == 0
  {}

  /** A block that is read is a good one, and stands there bit for bit. */
  lemma BlockSound(kind: nat, bits: Bits, out: seq<byte>) returns (b: Block)
    requires ReadBlock(kind, bits, out).Some?
    ensures var (out', rest) := ReadBlock(kind, bits, out).value;
      KindOf(b) == kind && BlockOk(b, out, rest) && out' == BlockOut(b, out) && bits == BlockBody(b, rest)
  {
    hide ReadStored, ReadTokens, ReadHeader, FormOk, PiecesOk, HasCode, BodyBits, HeaderBits, PiecesOut, StoredLengths;
    if kind == 0 {
      b := StoredSound(bits, out);
    } else if kind == 1 {
      FixedLitAccepted();
      FixedDistAccepted();
      var ps := BodySound(FixedLit(), FixedDist(), bits, out);
      b := Fixed(ps);
    } else {
      var h := HeaderSound(bits);
      var (lit, dist, after) := ReadHeader(bits).value;
      FormShaped(h, lit, dist);
      var ps := BodySound(lit, dist, after, out);
      b := Dynamic(h, lit, dist, ps);
    }
  }

  lemma FormShaped(h: Header, lit: seq<nat>, dist: seq<nat>)
    requires FormOk(h, lit, dist)
    ensures HeaderShaped(h) && CodesOk(lit, dist)
  {}

  /** And a good block is read. */
  lemma BlockRead(b: Block, out: seq<byte>, rest: Bits)
    requires BlockOk(b, out, rest)
    ensures ReadBlock(KindOf(b), BlockBody(b, rest), out) == Some((BlockOut(b, out), rest))
  {
    hide ReadStored, ReadTokens, ReadHeader, FormOk, PiecesOk, HasCode, BodyBits, HeaderBits, PiecesOut, StoredLengths;
    match b
    case Stored(pad, bytes) => StoredRead(pad, bytes, out, rest);
    case Fixed(ps) =>
      FixedHasCodes(END_OF_BLOCK);
      BodyRead(ps, FixedLit(), FixedDist(), rest, out);
    case Dynamic(h, lit, dist, ps) =>
      FormShaped(h, lit, dist);
      HeaderRead(h, lit, dist, BodyBits(ps, lit, dist, rest));
      BodyRead(ps, lit, dist, rest, out);
  }

  lemma StoredRead(pad: Bits, bytes: seq<byte>, out: seq<byte>, rest: Bits)
    requires |bytes| <= 65535 && |rest| % 8 == 0 && |pad| < 8
    ensures ReadStored(pad + (StoredLengths(|bytes|) + (ByteBits(bytes) + rest)), out) == Some((out + bytes, rest))
  {
    hide StoredLengths, ByteBits, ReadBytes, Value, ReadStored;
    var data := ByteBits(bytes) + rest;
    var body := StoredLengths(|bytes|) + data;
    StoredLengthsRead(|bytes|, data);
    ReadsBytes(bytes, rest, out);
    Realigned(pad, body, 4 + |bytes|, |rest|);
    AlignedRead(pad + body, body, |bytes|, out);
  }

  lemma Realigned(pad: Bits, body: Bits, bytes: nat, rest: nat)
    requires |pad| < 8 && |body| == 8 * bytes + rest && rest % 8 == 0
    ensures (pad + body)[|pad + body| % 8..] == body
  {
    PaddedBody(|pad|, bytes, rest);
    Grouped(pad, body, []);
  }

  lemma AlignedRead(bits: Bits, aligned: Bits, len: nat, out: seq<byte>)
    requires aligned == bits[|bits| % 8..] && |aligned| >= 32
    requires Value(aligned[..16]) == len && Value(aligned[16..32]) == 65535 - len && len <= 65535
    ensures ReadStored(bits, out) == ReadBytes(aligned[32..], len, out)
  {
    hide ReadBytes, Value;
  }

  lemma PaddedBody(pad: nat, bytes: nat, rest: nat)
    requires pad < 8 && rest % 8 == 0
    ensures (pad + (8 * bytes + rest)) % 8 == pad
  {}

  // ---------------------------------------------------------------- streams

  /** Blocks one after another, the last marked final, and what stands behind it. */
  ghost function StreamBits(bs: seq<Block>, tail: Bits): Bits {
    if bs == [] then tail
    else BlockHead(|bs| == 1, KindOf(bs[0])) + BlockBody(bs[0], StreamBits(bs[1..], tail))
  }

  ghost predicate StreamOk(bs: seq<Block>, out: seq<byte>, tail: Bits)
    decreases |bs|
  {
    bs == [] ||
    (BlockOk(bs[0], out, StreamBits(bs[1..], tail)) && StreamOk(bs[1..], BlockOut(bs[0], out), tail))
  }

  function StreamOut(bs: seq<Block>, out: seq<byte>): seq<byte>
    decreases |bs|
  {
    if bs == [] then out else StreamOut(bs[1..], BlockOut(bs[0], out))
  }

  /** A well-formed stream: at least one block, all of them good. */
  ghost predicate Wellformed(bs: seq<Block>, tail: Bits) {
    bs != [] && StreamOk(bs, [], tail)
  }

  lemma HeadBack(bits: Bits)
    requires |bits| >= 3
    ensures Value(bits[1..3]) < 4 && bits == BlockHead(bits[0], Value(bits[1..3])) + bits[3..]
  {
    SmallPowers();
    LsbOfValue(bits[1..3]);
    assert Lsb(if bits[0] then 1 else 0, 1) == [bits[0]];
    assert bits == [bits[0]] + bits[1..3] + bits[3..];
  }

  lemma {:induction false} StreamSound(bits: Bits, out: seq<byte>) returns (bs: seq<Block>, tail: Bits)
    requires ReadBlocks(bits, out).Some?
    ensures bs != [] && StreamOk(bs, out, tail) && StreamOut(bs, out) == ReadBlocks(bits, out).value
    ensures bits == StreamBits(bs, tail)
    decreases |bits|
  {
    hide ReadBlock, Value, BlockOk, BlockBody, BlockOut, BlockHead;
    HeadBack(bits);
    var b := BlockSound(Value(bits[1..3]), bits[3..], out);
    var (out', rest) := ReadBlock(Value(bits[1..3]), bits[3..], out).value;
    if bits[0] {
      bs, tail := [b], rest;
      assert [b][1..] == [];
    } else {
      var more;
      more, tail := StreamSound(rest, out');
      bs := [b] + more;
      assert bs[1..] == more;
    }
  }

  lemma {:induction false} StreamRead(bs: seq<Block>, out: seq<byte>, tail: Bits)
    requires bs != [] && StreamOk(bs, out, tail)
    ensures ReadBlocks(StreamBits(bs, tail), out) == Some(StreamOut(bs, out))
    decreases |bs|
  {
    hide ReadBlock, BlockOk, BlockBody, BlockOut, BlockHead, ReadBlocks;
    var rest := StreamBits(bs[1..], tail);
    BlockRead(bs[0], out, rest);
    ReadsBlock(|bs| == 1, KindOf(bs[0]), BlockBody(bs[0], rest), rest, out, BlockOut(bs[0], out));
    if |bs| > 1 { StreamRead(bs[1..], BlockOut(bs[0], out), tail); }
  }

  /** A stream decompresses to `data` if and only if it consists of good blocks that give `data`. */
  lemma InflateAcceptsExactly(bits: Bits, data: seq<byte>)
    ensures Inflate(bits) == Some(data) <==>
      exists bs, tail :: Wellformed(bs, tail) && bits == StreamBits(bs, tail) && data == StreamOut(bs, [])
  {
    hide ReadBlocks, StreamBits, StreamOk, StreamOut;
    if Inflate(bits) == Some(data) {
      var bs, tail := StreamSound(bits, []);
      assert Wellformed(bs, tail);
    }
    if bs, tail :| Wellformed(bs, tail) && bits == StreamBits(bs, tail) && data == StreamOut(bs, []) {
      StreamRead(bs, [], tail);
    }
  }
}
