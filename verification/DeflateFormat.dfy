/** What a DEFLATE stream means: a decoder over bit sequences, following `C-Deflate/src/inflate.c`
    branch by branch, and the bits an encoder writes. */
module DeflateFormat {
  import opened Options
  import opened DeflateBits
  import opened DeflateTables
  import opened HuffmanCodes
  import opened CodeLengths
  import opened Lz77

  // ---------------------------------------------------------------- reading

  /** `n` bits, least significant first, and what follows them. */
  function Take(bits: Bits, n: nat): (r: Option<(nat, Bits)>)
    ensures r.Some? <==> n <= |bits|
    ensures r.Some? ==> |r.value.1| == |bits| - n
  {
    if |bits| < n then None else Some((Value(bits[..n]), bits[n..]))
  }

  function Capped(s: seq<nat>, total: nat): (r: seq<nat>)
    ensures |r| <= total
  {
    if |s| > total then s[..total] else s
  }

  /** `total` code lengths, run-length coded with the code `cl`. */
  function ReadLengths(cl: seq<nat>, bits: Bits, total: nat, ls: seq<nat>): (r: Option<(seq<nat>, Bits)>)
    requires |ls| <= total
    ensures r.Some? ==> |r.value.0| == total && |r.value.1| <= |bits|
    decreases |bits|
  {
    if |ls| >= total then Some((ls, bits))
    else
      match DecodeSymbol(cl, bits)
      case None => None
      case Some((sym, rest)) =>
        if sym == 16 && ls == [] then None
        else
          match Take(rest, ExtraBits(sym))
          case None => None
          case Some((x, rest')) =>
            ReadLengths(cl, rest', total, Capped(ls + Stands(ls, Item(sym, x)), total))
  }

  /** `k` three-bit code lengths, stored in the order the format transmits them. */
  function ReadClLengths(bits: Bits, k: nat, i: nat, cl: seq<nat>): (r: Option<(seq<nat>, Bits)>)
    requires i <= k <= NUM_CODELEN && |cl| == NUM_CODELEN
    ensures r.Some? ==> |r.value.0| == NUM_CODELEN && |r.value.1| <= |bits|
    decreases k - i
  {
    if i == k then Some((cl, bits))
    else
      match Take(bits, 3)
      case None => None
      case Some((v, rest)) => ReadClLengths(rest, k, i + 1, cl[CODELEN_ORDER[i] := v])
  }

  function NoLengths(): (s: seq<nat>)
    ensures |s| == NUM_CODELEN
  {
    Copies(0, NUM_CODELEN)
  }

  /** The two codes of a dynamic block. */
  ghost function ReadHeader(bits: Bits): (r: Option<(seq<nat>, seq<nat>, Bits)>)
    ensures r.Some? ==> |r.value.2| <= |bits|
  {
    if |bits| < 14 then None
    else
      var hlit := Value(bits[..5]) + 257;
      var hdist := Value(bits[5..10]) + 1;
      var hclen := Value(bits[10..14]) + 4;
      if hlit > NUM_LITERALS || hdist > NUM_DISTANCES then None
      else ReadCodes(bits[14..], hlit, hdist, hclen)
  }

  ghost function ReadCodes(bits: Bits, hlit: nat, hdist: nat, hclen: nat): (r: Option<(seq<nat>, seq<nat>, Bits)>)
    ensures r.Some? ==> |r.value.2| <= |bits|
  {
    if hclen > NUM_CODELEN then None
    else
      match ReadClLengths(bits, hclen, 0, NoLengths())
      case None => None
      case Some((cl, rest)) => ReadCodesWith(cl, rest, hlit, hdist)
  }

  /** The two codes, once the code for their lengths is known. */
  ghost function ReadCodesWith(cl: seq<nat>, bits: Bits, hlit: nat, hdist: nat):
    (r: Option<(seq<nat>, seq<nat>, Bits)>)
    ensures r.Some? ==> |r.value.2| <= |bits|
  {
    if !Accepted(cl) then None
    else
      match ReadLengths(cl, bits, hlit + hdist, [])
      case None => None
      case Some((ls, rest)) => SplitCodes(ls, hlit, rest)
  }

  ghost function SplitCodes(ls: seq<nat>, hlit: nat, rest: Bits): (r: Option<(seq<nat>, seq<nat>, Bits)>)
    requires hlit <= |ls|
    ensures r.Some? ==> r.value.2 == rest
  {
    if Accepted(ls[..hlit]) && Accepted(ls[hlit..]) then Some((ls[..hlit], ls[hlit..], rest)) else None
  }

  /** The symbols of one compressed block, up to its end mark. */
  function ReadTokens(lit: seq<nat>, dist: seq<nat>, bits: Bits, out: seq<byte>): (r: Option<(seq<byte>, Bits)>)
    ensures r.Some? ==> |r.value.1| <= |bits|
    decreases |bits|
  {
    match DecodeSymbol(lit, bits)
    case None => None
    case Some((sym, rest)) =>
      if sym == END_OF_BLOCK then Some((out, rest))
      else if sym < 256 then ReadTokens(lit, dist, rest, out + [sym])
      else if sym - 257 >= 29 then None
      else
        match ReadMatch(sym - 257, dist, rest, |out|)
        case None => None
        case Some((length, distance, rest')) => ReadTokens(lit, dist, rest', Copy(out, length, distance))
  }

  /** Decoding a block only appends to the output. */
  lemma {:induction false} OutputGrows(lit: seq<nat>, dist: seq<nat>, bits: Bits, out: seq<byte>)
    requires ReadTokens(lit, dist, bits, out).Some?
    ensures out <= ReadTokens(lit, dist, bits, out).value.0
    decreases |bits|
  {
    hide ReadMatch, Copy;
    var (sym, rest) := DecodeSymbol(lit, bits).value;
    if sym == END_OF_BLOCK {
    } else if sym < 256 {
      OutputGrows(lit, dist, rest, out + [sym]);
    } else {
      var (length, distance, rest') := ReadMatch(sym - 257, dist, rest, |out|).value;
      OutputGrows(lit, dist, rest', Copy(out, length, distance));
    }
  }

  /** The rest of a match, after its length symbol. */
  function ReadMatch(lc: nat, dist: seq<nat>, bits: Bits, written: nat): (r: Option<(nat, nat, Bits)>)
    requires lc < 29
    ensures r.Some? ==> |r.value.2| <= |bits| && 1 <= r.value.1 <= written
  {
    match Take(bits, LengthExtra(lc))
    case None => None
    case Some((lx, rest)) =>
      match ReadDistance(dist, rest, written)
      case None => None
      case Some((distance, rest')) => Some((LengthBase(lc) + lx, distance, rest'))
  }

  /** A distance symbol and its extra bits; it may not reach before the start of the output. */
  function ReadDistance(dist: seq<nat>, bits: Bits, written: nat): (r: Option<(nat, Bits)>)
    ensures r.Some? ==> |r.value.1| <= |bits| && 1 <= r.value.0 <= written
  {
    match DecodeSymbol(dist, bits)
    case None => None
    case Some((dc, rest)) =>
      if dc >= NUM_DISTANCES then None
      else
        match Take(rest, DistExtra(dc))
        case None => None
        case Some((dx, rest')) =>
          PositiveBase(dc);
          if DistBase(dc) + dx > written then None else Some((DistBase(dc) + dx, rest'))
  }

  lemma PositiveBase(dc: nat)
    requires dc < 30
    ensures DistBase(dc) >= 1
  {}

  function ReadBytes(bits: Bits, n: nat, out: seq<byte>): (r: Option<(seq<byte>, Bits)>)
    ensures r.Some? ==> |r.value.1| <= |bits|
    decreases n
  {
    if n == 0 then Some((out, bits))
    else
      match Take(bits, 8)
      case None => None
      case Some((v, rest)) =>
        EightBits(v);
        ReadBytes(rest, n - 1, out + [v % 256])
  }

  /** A stored block: skip to a byte boundary, a length and its complement, then the bytes. */
  function ReadStored(bits: Bits, out: seq<byte>): (r: Option<(seq<byte>, Bits)>)
    ensures r.Some? ==> |r.value.1| <= |bits|
  {
    var aligned := bits[|bits| % 8..];
    if |aligned| < 32 then None
    else
      var len, nlen := Value(aligned[..16]), Value(aligned[16..32]);
      if len + nlen != 65535 then None
      else ReadBytes(aligned[32..], len, out)
  }

  /** The fixed code's lengths, over 286 literal and 30 distance symbols. */
  function FixedLit(): (s: seq<nat>)
    ensures |s| == NUM_LITERALS
  {
    seq(NUM_LITERALS, i => if i < 144 then 8 else if i < 256 then 9 else if i < 280 then 7 else 8)
  }

  function FixedDist(): (s: seq<nat>)
    ensures |s| == NUM_DISTANCES
  {
    Copies(5, NUM_DISTANCES)
  }

  /** One block after its three header bits. */
  ghost function ReadBlock(kind: nat, bits: Bits, out: seq<byte>): (r: Option<(seq<byte>, Bits)>)
    ensures r.Some? ==> |r.value.1| <= |bits|
  {
    if kind == 0 then ReadStored(bits, out)
    else if kind == 1 then ReadTokens(FixedLit(), FixedDist(), bits, out)
    else if kind == 2 then
      match ReadHeader(bits)
      case None => None
      case Some((lit, dist, rest)) => ReadTokens(lit, dist, rest, out)
    else None
  }

  /** Blocks up to the one marked final; `None` is every kind of failure. */
  ghost function ReadBlocks(bits: Bits, out: seq<byte>): Option<seq<byte>>
    decreases |bits|
  {
    if |bits| < 3 then None
    else
      match ReadBlock(Value(bits[1..3]), bits[3..], out)
      case None => None
      case Some((out', rest)) =>
        if bits[0] then Some(out') else ReadBlocks(rest, out')
  }

  /** What a stream decompresses to. */
  ghost function Inflate(bits: Bits): Option<seq<byte>> {
    ReadBlocks(bits, [])
  }

  lemma {:induction false} BytesGrow(bits: Bits, n: nat, out: seq<byte>)
    requires ReadBytes(bits, n, out).Some?
    ensures out <= ReadBytes(bits, n, out).value.0
    ensures |ReadBytes(bits, n, out).value.0| == |out| + n
    decreases n
  {
    hide Take;
    if n > 0 {
      var (v, rest) := Take(bits, 8).value;
      EightBits(v);
      BytesGrow(rest, n - 1, out + [v % 256]);
    }
  }

  lemma BlockGrows(kind: nat, bits: Bits, out: seq<byte>)
    requires ReadBlock(kind, bits, out).Some?
    ensures out <= ReadBlock(kind, bits, out).value.0
  {
    hide ReadHeader, ReadTokens, ReadBytes, Value;
    if kind == 0 {
      var aligned := bits[|bits| % 8..];
      BytesGrow(aligned[32..], Value(aligned[..16]), out);
    } else if kind == 1 {
      OutputGrows(FixedLit(), FixedDist(), bits, out);
    } else {
      var (lit, dist, rest) := ReadHeader(bits).value;
      OutputGrows(lit, dist, rest, out);
    }
  }

  /** Later blocks only append: output that does not fit never comes to fit. */
  lemma {:induction false} BlocksGrow(bits: Bits, out: seq<byte>)
    requires ReadBlocks(bits, out).Some?
    ensures out <= ReadBlocks(bits, out).value
    decreases |bits|
  {
    hide ReadBlock, Value;
    BlockGrows(Value(bits[1..3]), bits[3..], out);
    var (out', rest) := ReadBlock(Value(bits[1..3]), bits[3..], out).value;
    if !bits[0] { BlocksGrow(rest, out'); }
  }
}
