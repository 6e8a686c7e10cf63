/** The decoder of `C-Deflate/src/inflate.c`: it returns exactly what the stream means, or an error
    when the stream means nothing or the output does not fit. */
module InflateStream {
  import opened Options
  import opened DeflateBits
  import opened DeflateTables
  import opened HuffmanCodes
  import opened Lz77
  import opened DeflateFormat
  import opened DeflateFixed
  import opened InflateHeader

  // ---------------------------------------------------------------- the compressed block

  /** The output so far. */
  ghost predicate Holds(out: array<byte>, written: nat, data: seq<byte>)
    reads out
  {
    written <= out.Length && out[..written] == data
  }

  /** What cannot be delivered in `cap` bytes: nothing, or too much, which has a code of its own. */
  ghost predicate Undeliverable<T>(target: Option<(seq<byte>, T)>, cap: nat, rc: int) {
    target.Some? ==> |target.value.0| > cap && rc == DF_ERR_OUTPUT
  }

  /** Byte at a time, because a match may overlap its own output. */
  method CopyMatch(out: array<byte>, written: nat, length: nat, distance: nat, ghost data: seq<byte>)
    requires Holds(out, written, data) && 1 <= distance <= written && written + length <= out.Length
    modifies out
    ensures Holds(out, written + length, Copy(data, length, distance))
  {
    var from := written - distance;
    ghost var now := data;
    for i := 0 to length
      invariant Holds(out, written + i, now) && |now| == written + i
      invariant Copy(now, length - i, distance) == Copy(data, length, distance)
    {
      assert out[from + i] == now[|now| - distance];
      out[written + i] := out[from + i];
      now := now + [now[|now| - distance]];
      assert out[..written + i + 1] == now;
    }
  }

  method TakeDistance(r: BitReader, dist: HuffDecoder, written: nat, ghost target: Option<(nat, Bits)>)
    returns (rc: int, distance: nat)
    requires dist.Ready() && |dist.lengths| <= NUM_DISTANCES
    requires Heads(r, ReadDistance(dist.lengths, r.rest, written), target)
    modifies r
    ensures r.Valid() && (old(r.underflow) ==> r.underflow)
    ensures rc < 0 ==> target.None?
    ensures rc >= 0 ==> 1 <= distance <= written && Heads(r, Some((distance, r.rest)), target)
  {
    hide DistBase, DistExtra, Value, DecodeSymbol;
    distance := 0;
    var dc := dist.Decode(r);
    if dc < 0 || dc >= NUM_DISTANCES { return DF_ERR_CORRUPT, distance; }
    DistanceWidths(dc);
    var dx := r.TakeBits(DistExtra(dc));
    distance := DistBase(dc) + dx;
    PositiveBase(dc);
    if distance > written { return DF_ERR_CORRUPT, distance; }
    rc := DF_OK;
  }

  /** The rest of a match after its length symbol. */
  method TakeMatch(r: BitReader, lc: nat, dist: HuffDecoder, written: nat,
                   ghost target: Option<(nat, nat, Bits)>)
    returns (rc: int, length: nat, distance: nat)
    requires r.Valid() && !r.underflow && lc < 29 && dist.Ready() && |dist.lengths| <= NUM_DISTANCES
    requires target == ReadMatch(lc, dist.lengths, r.rest, written)
    modifies r
    ensures r.Valid() && (rc < 0 ==> target.None?)
    ensures rc >= 0 ==> 1 <= distance <= written && Heads(r, Some((length, distance, r.rest)), target)
  {
    hide LengthBase, LengthExtra, Value, ReadDistance;
    ExtraWidths(lc);
    var lx := r.TakeBits(LengthExtra(lc));
    length := LengthBase(lc) + lx;
    ghost var dTarget := if r.underflow then None else ReadDistance(dist.lengths, r.rest, written);
    rc, distance := TakeDistance(r, dist, written, dTarget);
  }

  lemma ExtraWidths(lc: nat)
    requires lc < 29
    ensures LengthExtra(lc) <= 5
  {}

  lemma DistanceWidths(dc: nat)
    requires dc < 30
    ensures DistExtra(dc) <= 13
  {}

  method AppendByte(out: array<byte>, written: nat, b: byte, ghost data: seq<byte>)
    requires Holds(out, written, data) && written < out.Length
    modifies out
    ensures Holds(out, written + 1, data + [b])
  {
    out[written] := b;
    assert out[..written + 1] == out[..written] + [b];
  }

  lemma ReadySize(dec: HuffDecoder)
    requires dec.Ready()
    ensures |dec.lengths| <= NUM_LITERALS
  {}

  /** The symbol loop of a compressed block: it delivers what the block means, or fails exactly when
      the block means nothing or its output does not fit. */
  method InflateBlock(r: BitReader, lit: HuffDecoder, dist: HuffDecoder, out: array<byte>, start: nat,
                      ghost data0: seq<byte>)
    returns (rc: int, written: nat, ghost data: seq<byte>)
    requires r.Valid() && !r.underflow && BothReady(lit, dist) && Holds(out, start, data0)
    modifies r, out
    ensures r.Valid() && Holds(out, written, data)
    ensures rc < 0 ==> Undeliverable(ReadTokens(lit.lengths, dist.lengths, old(r.rest), data0), out.Length, rc)
    ensures rc >= 0 ==>
      !r.underflow && ReadTokens(lit.lengths, dist.lengths, old(r.rest), data0) == Some((data, r.rest))
  {
    hide Copy, Value, DecodeSymbol, ReadMatch, BitReader.Valid, HuffDecoder.Ready, Holds;
    ghost var target := ReadTokens(lit.lengths, dist.lengths, r.rest, data0);
    written, data := start, data0;
    while true
      invariant Holds(out, written, data) && BothReady(lit, dist)
      invariant Heads(r, ReadTokens(lit.lengths, dist.lengths, r.rest, data), target)
      decreases if r.underflow then 0 else 1 + |r.rest|
    {
      ReadySize(lit);
      var sym := lit.Decode(r);
      if sym < 0 || r.underflow {
        rc := if sym < 0 then DF_ERR_CORRUPT else DF_ERR_INPUT;
        return;
      }
      if sym == END_OF_BLOCK {
        rc := DF_OK;
        return;
      }
      rc, written, data := InflateSymbol(r, lit, dist, sym, out, written, data, target);
      if rc < 0 { return; }
    }
  }

  /** One literal or match, its symbol already read. */
  method InflateSymbol(r: BitReader, lit: HuffDecoder, dist: HuffDecoder, sym: nat, out: array<byte>, start: nat,
                       ghost data0: seq<byte>, ghost target: Option<(seq<byte>, Bits)>)
    returns (rc: int, written: nat, ghost data: seq<byte>)
    requires r.Valid() && !r.underflow && BothReady(lit, dist) && Holds(out, start, data0)
    requires sym < NUM_LITERALS && sym != END_OF_BLOCK
    requires target == AfterSymbol(lit.lengths, dist.lengths, sym, r.rest, data0)
    modifies r, out
    ensures r.Valid() && Holds(out, written, data)
    ensures rc < 0 ==> Undeliverable(target, out.Length, rc)
    ensures rc >= 0 ==> Heads(r, ReadTokens(lit.lengths, dist.lengths, r.rest, data), target)
    ensures rc >= 0 && !r.underflow ==> |r.rest| <= |old(r.rest)|
  {
    hide Copy, Value, DecodeSymbol, ReadMatch, ReadTokens;
    written, data := start, data0;
    if sym < 256 {
      if written >= out.Length {
        Exceeds(lit.lengths, dist.lengths, r.rest, data0 + [sym]);
        return DF_ERR_OUTPUT, written, data;
      }
      AppendByte(out, written, sym, data);
      return DF_OK, written + 1, data + [sym];
    }
    var length, distance;
    rc, length, distance := TakeMatch(r, sym - 257, dist, written, ReadMatch(sym - 257, dist.lengths, r.rest, written));
    if rc < 0 { return; }
    if written + length > out.Length {
      if !r.underflow { Exceeds(lit.lengths, dist.lengths, r.rest, Copy(data0, length, distance)); }
      return DF_ERR_OUTPUT, written, data;
    }
    CopyMatch(out, written, length, distance, data);
    written, data := written + length, Copy(data, length, distance);
  }

  lemma Exceeds(lit: seq<nat>, dist: seq<nat>, bits: Bits, out: seq<byte>)
    ensures var r := ReadTokens(lit, dist, bits, out);
      r.Some? ==> |r.value.0| >= |out|
  {
    hide ReadTokens;
    if ReadTokens(lit, dist, bits, out).Some? { OutputGrows(lit, dist, bits, out); }
  }

  /** What is left of a block after one of its symbols, other than the end mark. */
  ghost function AfterSymbol(lit: seq<nat>, dist: seq<nat>, sym: nat, bits: Bits, out: seq<byte>):
    Option<(seq<byte>, Bits)>
    requires sym < NUM_LITERALS && sym != END_OF_BLOCK
  {
    if sym < 256 then ReadTokens(lit, dist, bits, out + [sym])
    else
      match ReadMatch(sym - 257, dist, bits, |out|)
      case None => None
      case Some((length, distance, rest)) => ReadTokens(lit, dist, rest, Copy(out, length, distance))
  }

  // ---------------------------------------------------------------- stored blocks

  method InflateStored(r: BitReader, out: array<byte>, start: nat, ghost data0: seq<byte>)
    returns (rc: int, written: nat, ghost data: seq<byte>)
    requires r.Valid() && !r.underflow && Holds(out, start, data0)
    modifies r, out
    ensures r.Valid() && Holds(out, written, data)
    ensures rc < 0 ==> Undeliverable(ReadStored(old(r.rest), data0), out.Length, rc)
    ensures rc >= 0 ==> !r.underflow && ReadStored(old(r.rest), data0) == Some((data, r.rest))
  {
    hide ReadBytes;
    written, data := start, data0;
    r.Align();
    ghost var aligned := r.rest;
    var len := r.TakeBits(16);
    var nlen := r.TakeBits(16);
    if r.underflow { return DF_ERR_INPUT, written, data; }
    Halves(aligned);
    if len + nlen != 65535 { return DF_ERR_CORRUPT, written, data; }
    if written + len > out.Length {
      TooManyBytes(r.rest, len, data);
      return DF_ERR_OUTPUT, written, data;
    }
    rc, written, data := InflateBytes(r, len, out, written, data);
  }

  lemma Halves(bits: Bits)
    requires |bits| >= 32
    ensures bits[16..][..16] == bits[16..32] && bits[16..][16..] == bits[32..]
  {}

  lemma TooManyBytes(bits: Bits, n: nat, out: seq<byte>)
    ensures ReadBytes(bits, n, out).Some? ==> |ReadBytes(bits, n, out).value.0| == |out| + n
  {
    if ReadBytes(bits, n, out).Some? { BytesGrow(bits, n, out); }
  }

  method InflateBytes(r: BitReader, len: nat, out: array<byte>, start: nat, ghost data0: seq<byte>)
    returns (rc: int, written: nat, ghost data: seq<byte>)
    requires r.Valid() && !r.underflow && Holds(out, start, data0) && start + len <= out.Length
    modifies r, out
    ensures r.Valid() && Holds(out, written, data)
    ensures rc < 0 ==> ReadBytes(old(r.rest), len, data0).None?
    ensures rc >= 0 ==> !r.underflow && ReadBytes(old(r.rest), len, data0) == Some((data, r.rest))
  {
    hide Value;
    ghost var target := ReadBytes(r.rest, len, data0);
    written, data := start, data0;
    for i := 0 to len
      invariant !r.underflow && written == start + i && Holds(out, written, data)
      invariant Heads(r, ReadBytes(r.rest, len - i, data), target)
    {
      var v := r.TakeBits(8);
      if r.underflow { return DF_ERR_INPUT, written, data; }
      EightBits(v);
      AppendByte(out, written, v % 256, data);
      written, data := written + 1, data + [v % 256];
    }
    rc := DF_OK;
  }

  // ---------------------------------------------------------------- the whole stream

  /** One block of the given type. */
  method InflateKind(r: BitReader, kind: nat, out: array<byte>, start: nat, ghost data0: seq<byte>)
    returns (rc: int, written: nat, ghost data: seq<byte>)
    requires r.Valid() && !r.underflow && Holds(out, start, data0) && kind < 4
    modifies r, out
    ensures r.Valid() && Holds(out, written, data)
    ensures rc < 0 ==> Undeliverable(ReadBlock(kind, old(r.rest), data0), out.Length, rc)
    ensures rc >= 0 ==> !r.underflow && ReadBlock(kind, old(r.rest), data0) == Some((data, r.rest))
  {
    hide ReadStored, ReadTokens, ReadHeader, FixedLit, FixedDist, Accepted;
    written, data := start, data0;
    if kind == 0 {
      rc, written, data := InflateStored(r, out, written, data);
      return;
    }
    if kind == 3 { return DF_ERR_CORRUPT, written, data; }
    var lit := new HuffDecoder();
    var dist := new HuffDecoder();
    if kind == 1 {
      FixedDecoders(lit, dist);
    } else {
      rc := ReadDynamicHeader(r, lit, dist);
      if rc < 0 { return; }
    }
    rc, written, data := InflateBlock(r, lit, dist, out, written, data);
  }

  /** `fixed_decoders`: both fixed codes are accepted. */
  method FixedDecoders(lit: HuffDecoder, dist: HuffDecoder)
    requires Apart(lit, dist)
    modifies lit, lit.counts, lit.symbols, dist, dist.counts, dist.symbols
    ensures Apart(lit, dist) && BothReady(lit, dist)
    ensures lit.lengths == FixedLit() && dist.lengths == FixedDist()
  {
    hide Accepted;
    FixedLitAccepted();
    FixedDistAccepted();
    var _ := lit.Build(FixedLit());
    var _ := dist.Build(FixedDist());
  }

  ghost predicate Delivered(target: Option<seq<byte>>, r: int, out: array<byte>)
    reads out
  {
    match target
    case None => r < 0
    case Some(data) => if |data| > out.Length then r == DF_ERR_OUTPUT else r == |data| && out[..|data|] == data
  }

  /** `deflate_decompress`: exactly the bytes the stream means, or a negative code when it means
      nothing or they do not fit. */
  method Decompress(inp: seq<byte>, out: array<byte>) returns (result: int)
    modifies out
    ensures Delivered(Inflate(ByteBits(inp)), result, out)
  {
    hide ReadBlock, Value;
    var r := new BitReader(inp);
    ghost var target := ReadBlocks(r.rest, []);
    var written: nat, final := 0, false;
    ghost var data: seq<byte> := [];
    while !final
      invariant r.Valid() && !r.underflow && Holds(out, written, data)
      invariant target == if final then Some(data) else ReadBlocks(r.rest, data)
      decreases !final, |r.rest|
    {
      ghost var bits := r.rest;
      var last, kind := TakeBlockHead(r);
      if r.underflow { return DF_ERR_INPUT; }
      var rc;
      ghost var before := data;
      rc, written, data := InflateKind(r, kind, out, written, data);
      if rc < 0 {
        BlockUndeliverable(bits, before, out.Length, rc);
        return rc;
      }
      final := last;
    }
    result := written;
  }

  method TakeBlockHead(r: BitReader) returns (last: bool, kind: nat)
    requires r.Valid() && !r.underflow
    modifies r
    ensures r.Valid() && kind < 4 && (r.underflow <==> |old(r.rest)| < 3)
    ensures !r.underflow ==>
      last == old(r.rest)[0] && kind == Value(old(r.rest)[1..3]) && r.rest == old(r.rest)[3..]
  {
    ghost var bits := r.rest;
    var f := r.TakeBits(1);
    kind := r.TakeBits(2);
    last := f == 1;
    SmallPowers();
    if |bits| >= 3 { HeadBits(bits); }
  }

  lemma HeadBits(bits: Bits)
    requires |bits| >= 3
    ensures bits[1..][..2] == bits[1..3] && bits[1..][2..] == bits[3..]
    ensures Value(bits[..1]) == if bits[0] then 1 else 0
  {
    assert bits[..1][1..] == [];
  }

  lemma BlockUndeliverable(bits: Bits, out: seq<byte>, cap: nat, rc: int)
    requires |bits| >= 3 && Undeliverable(ReadBlock(Value(bits[1..3]), bits[3..], out), cap, rc)
    ensures ReadBlocks(bits, out).Some? ==> |ReadBlocks(bits, out).value| > cap && rc == DF_ERR_OUTPUT
  {
    hide ReadBlock, Value;
    if ReadBlocks(bits, out).Some? && !bits[0] {
      var (out', rest) := ReadBlock(Value(bits[1..3]), bits[3..], out).value;
      BlocksGrow(rest, out');
    }
  }
}
