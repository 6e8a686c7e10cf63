/** `read_dynamic_header` of `C-Deflate/src/inflate.c`: it builds both decoders exactly when the
    header means something. */
module InflateHeader {
  import opened Options
  import opened DeflateBits
  import opened DeflateTables
  import opened HuffmanCodes
  import opened CodeLengths
  import opened DeflateFormat

  // ---------------------------------------------------------------- the dynamic header

  /** The value a reader goes on to deliver, as long as it has not run dry; `None` once it has. */
  ghost predicate Heads<T>(r: BitReader, now: Option<T>, target: Option<T>)
    reads r
  {
    r.Valid() && if r.underflow then target.None? else now == target
  }

  /** Appends up to `repeat` copies, as far as there is room. */
  method AppendCopies(ls: seq<nat>, v: nat, repeat: nat, total: nat) returns (ls': seq<nat>)
    requires |ls| <= total
    ensures ls' == Capped(ls + Copies(v, repeat), total)
  {
    ls' := ls;
    var done := 0;
    while done < repeat && |ls'| < total
      invariant done <= repeat && |ls| + done <= total && ls' == ls + Copies(v, done)
    {
      ls' := ls' + [v];
      done := done + 1;
    }
    assert (ls + Copies(v, repeat))[..|ls| + done] == ls + Copies(v, done);
  }

  /** One code-length symbol and its extra bits. */
  method ReadItem(r: BitReader, dec: HuffDecoder, total: nat, ls: seq<nat>,
                  ghost target: Option<(seq<nat>, Bits)>)
    returns (rc: int, ls': seq<nat>)
    requires dec.Ready() && |dec.lengths| <= NUM_CODELEN && |ls| < total
    requires Heads(r, ReadLengths(dec.lengths, r.rest, total, ls), target)
    modifies r
    ensures r.Valid() && |ls'| <= total && (rc < 0 ==> target.None?)
    ensures rc >= 0 ==> !r.underflow && Heads(r, ReadLengths(dec.lengths, r.rest, total, ls'), target)
    ensures rc >= 0 ==> |r.rest| < old(|r.rest|)
  {
    hide Stands, Capped, DecodeSymbol, Value;
    ls' := ls;
    var sym := dec.Decode(r);
    if sym < 0 { return DF_ERR_CORRUPT, ls; }
    if sym == 16 && ls == [] { return DF_ERR_CORRUPT, ls; }
    var x := r.TakeBits(ExtraBits(sym));
    ls' := ApplyItem(ls, sym, x, total);
    if r.underflow { return DF_ERR_INPUT, ls'; }
    rc := DF_OK;
  }

  method ApplyItem(ls: seq<nat>, sym: nat, x: nat, total: nat) returns (ls': seq<nat>)
    requires |ls| < total && (sym == 16 ==> ls != [])
    ensures ls' == Capped(ls + Stands(ls, Item(sym, x)), total)
  {
    if sym < 16 {
      ls' := ls + [sym];
    } else if sym == 16 {
      ls' := AppendCopies(ls, ls[|ls| - 1], 3 + x, total);
    } else if sym == 17 {
      ls' := AppendCopies(ls, 0, 3 + x, total);
    } else {
      ls' := AppendCopies(ls, 0, 11 + x, total);
    }
  }

  method ReadItems(r: BitReader, dec: HuffDecoder, total: nat, ghost target: Option<(seq<nat>, Bits)>)
    returns (rc: int, ls: seq<nat>)
    requires dec.Ready() && |dec.lengths| <= NUM_CODELEN && total > 0
    requires Heads(r, ReadLengths(dec.lengths, r.rest, total, []), target)
    modifies r
    ensures r.Valid() && (rc < 0 ==> target.None?)
    ensures rc >= 0 ==> !r.underflow && |ls| == total && target == Some((ls, r.rest))
  {
    ls := [];
    while |ls| < total
      invariant |ls| <= total && (|ls| == total ==> !r.underflow)
      invariant Heads(r, ReadLengths(dec.lengths, r.rest, total, ls), target)
      decreases |r.rest|
    {
      rc, ls := ReadItem(r, dec, total, ls, target);
      if rc < 0 { return; }
    }
    rc := DF_OK;
  }

  lemma NoLengthsIsZeros()
    ensures NoLengths() == Copies(0, NUM_CODELEN)
  {}

  /** One more three-bit length, if it is there. */
  lemma ClLengthRead(bits: Bits, k: nat, i: nat, cl: seq<nat>)
    requires i <= k <= NUM_CODELEN && |cl| == NUM_CODELEN
    ensures i == k ==> ReadClLengths(bits, k, i, cl) == Some((cl, bits))
    ensures i < k ==> ReadClLengths(bits, k, i, cl) ==
                      if |bits| < 3 then None
                      else ReadClLengths(bits[3..], k, i + 1, cl[CODELEN_ORDER[i] := Value(bits[..3])])
  {
    hide Value;
  }

  /** The code for the code lengths: `hclen` three-bit lengths, in transmission order. */
  method ReadClCode(r: BitReader, hclen: nat, ghost target: Option<(seq<nat>, Bits)>) returns (cl: seq<nat>)
    requires hclen <= NUM_CODELEN
    requires Heads(r, ReadClLengths(r.rest, hclen, 0, NoLengths()), target)
    modifies r
    ensures |cl| == NUM_CODELEN && Heads(r, Some((cl, r.rest)), target)
  {
    hide Value, Copies, NoLengths, ReadClLengths, BitReader.Valid;
    NoLengthsIsZeros();
    cl := Copies(0, NUM_CODELEN);
    for i := 0 to hclen
      invariant |cl| == NUM_CODELEN
      invariant Heads(r, ReadClLengths(r.rest, hclen, i, cl), target)
    {
      ClLengthRead(r.rest, hclen, i, cl);
      var v := r.TakeBits(3);
      cl := cl[CODELEN_ORDER[i] := v];
    }
    ClLengthRead(r.rest, hclen, hclen, cl);
  }

  method TakeHeaderSizes(r: BitReader) returns (hlit: nat, hdist: nat, hclen: nat)
    requires r.Valid() && !r.underflow
    modifies r
    ensures r.Valid() && hlit >= 257 && hclen <= NUM_CODELEN
    ensures r.underflow <==> |old(r.rest)| < 14
    ensures !r.underflow ==>
      hlit == Value(old(r.rest)[..5]) + 257 && hdist == Value(old(r.rest)[5..10]) + 1 &&
      hclen == Value(old(r.rest)[10..14]) + 4 && r.rest == old(r.rest)[14..]
  {
    ghost var bits := r.rest;
    var a := r.TakeBits(5);
    var b := r.TakeBits(5);
    var c := r.TakeBits(4);
    if |bits| >= 14 { SliceOfSlice(bits); }
    SmallPowers();
    hlit, hdist, hclen := a + 257, b + 1, c + 4;
  }

  lemma SliceOfSlice(bits: Bits)
    requires |bits| >= 14
    ensures bits[5..][..5] == bits[5..10] && bits[5..][5..] == bits[10..]
    ensures bits[10..][..4] == bits[10..14] && bits[10..][4..] == bits[14..]
  {}

  /** Two decoders that share no table. */
  ghost predicate Apart(a: HuffDecoder, b: HuffDecoder)
    reads a, b
  {
    a != b && {a.counts, a.symbols} !! {b.counts, b.symbols} && a.Allocated() && b.Allocated()
  }

  ghost predicate BothReady(lit: HuffDecoder, dist: HuffDecoder)
    reads lit, lit.counts, lit.symbols, dist, dist.counts, dist.symbols
  {
    lit.Ready() && dist.Ready() && |dist.lengths| <= NUM_DISTANCES
  }

  method BuildCodes(ls: seq<nat>, hlit: nat, lit: HuffDecoder, dist: HuffDecoder, ghost rest: Bits) returns (rc: int)
    requires Apart(lit, dist) && hlit <= |ls| && hlit <= NUM_LITERALS && |ls| - hlit <= NUM_DISTANCES
    modifies lit, lit.counts, lit.symbols, dist, dist.counts, dist.symbols
    ensures Apart(lit, dist)
    ensures if rc < 0 then SplitCodes(ls, hlit, rest).None? else
      BothReady(lit, dist) && SplitCodes(ls, hlit, rest) == Some((lit.lengths, dist.lengths, rest))
  {
    hide Accepted;
    var ok := lit.Build(ls[..hlit]);
    if !ok { return DF_ERR_CORRUPT; }
    ok := dist.Build(ls[hlit..]);
    if !ok { return DF_ERR_CORRUPT; }
    rc := DF_OK;
  }

  /** `read_dynamic_header`: both codes, or an error exactly when the header means nothing. */
  method ReadDynamicHeader(r: BitReader, lit: HuffDecoder, dist: HuffDecoder) returns (rc: int)
    requires r.Valid() && !r.underflow && Apart(lit, dist)
    modifies r, lit, lit.counts, lit.symbols, dist, dist.counts, dist.symbols
    ensures r.Valid() && Apart(lit, dist)
    ensures rc < 0 ==> ReadHeader(old(r.rest)).None?
    ensures rc >= 0 ==> !r.underflow && BothReady(lit, dist)
    ensures rc >= 0 ==> ReadHeader(old(r.rest)) == Some((lit.lengths, dist.lengths, r.rest))
  {
    hide ReadCodes, Value, Apart, BothReady;
    ghost var target := ReadHeader(r.rest);
    var hlit, hdist, hclen := TakeHeaderSizes(r);
    if hlit > NUM_LITERALS || hdist > NUM_DISTANCES { return DF_ERR_CORRUPT; }
    assert Heads(r, ReadCodes(r.rest, hlit, hdist, hclen), target);
    rc := ReadCodesInto(r, hlit, hdist, hclen, lit, dist, target);
  }

  method ReadCodesInto(r: BitReader, hlit: nat, hdist: nat, hclen: nat, lit: HuffDecoder, dist: HuffDecoder,
                       ghost target: Option<(seq<nat>, seq<nat>, Bits)>)
    returns (rc: int)
    requires Apart(lit, dist) && 0 < hlit <= NUM_LITERALS && hdist <= NUM_DISTANCES && hclen <= NUM_CODELEN
    requires Heads(r, ReadCodes(r.rest, hlit, hdist, hclen), target)
    modifies r, lit, lit.counts, lit.symbols, dist, dist.counts, dist.symbols
    ensures r.Valid() && Apart(lit, dist)
    ensures rc < 0 ==> target.None?
    ensures rc >= 0 ==> !r.underflow && BothReady(lit, dist) && target == Some((lit.lengths, dist.lengths, r.rest))
  {
    hide Accepted, ReadLengths, ReadClLengths, SplitCodes, NoLengths;
    ghost var clTarget := if r.underflow then None else ReadClLengths(r.rest, hclen, 0, NoLengths());
    var cl := ReadClCode(r, hclen, clTarget);
    assert Heads(r, ReadCodesWith(cl, r.rest, hlit, hdist), target);
    var clDec := new HuffDecoder();
    var ok := clDec.Build(cl);
    if !ok { return DF_ERR_CORRUPT; }
    ghost var lsTarget := if r.underflow then None else ReadLengths(cl, r.rest, hlit + hdist, []);
    var ls;
    rc, ls := ReadItems(r, clDec, hlit + hdist, lsTarget);
    if rc < 0 { return; }
    rc := BuildCodes(ls, hlit, lit, dist, r.rest);
  }
}
