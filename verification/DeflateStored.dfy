/** Stored blocks, as `C-Deflate/src/deflate.c` writes them. */
module DeflateStored {
  import opened DeflateBits
  import opened DeflatePlan

  /** `emit_stored`: from a byte boundary to a byte boundary. */
  method EmitStored(w: BitWriter, bytes: seq<byte>, final: bool)
    requires w.Valid() && |bytes| <= 65535 && |w.written| % 8 == 0
    modifies w, w.out
    ensures w.Valid() && w.written == old(w.written) + (BlockHead(final, 0) + StoredBody(bytes))
  {
    hide StoredBody;
    EmitHead(w, final);
    EmitBody(w, bytes);
  }

  method EmitHead(w: BitWriter, final: bool)
    requires w.Valid() && |w.written| % 8 == 0
    modifies w, w.out
    ensures w.Valid() && w.written == old(w.written) + BlockHead(final, 0) && |w.written| % 8 == 3
  {
    hide Lsb, BitWriter.Valid;
    w.PutBits(if final then 1 else 0, 1);
    w.PutBits(0, 2);
  }

  method EmitBody(w: BitWriter, bytes: seq<byte>)
    requires w.Valid() && |bytes| <= 65535 && |w.written| % 8 == 3
    modifies w, w.out
    ensures w.Valid() && w.written == old(w.written) + StoredBody(bytes)
  {
    hide Lsb, Zeros, ByteBits;
    PadAfterHead(|w.written|);
    w.Align();
    EmitLengths(w, |bytes|);
    PutBytes(w, bytes);
  }

  method EmitLengths(w: BitWriter, n: nat)
    requires w.Valid() && n <= 65535
    modifies w, w.out
    ensures w.Valid() && w.written == old(w.written) + StoredLengths(n)
  {
    hide Lsb;
    w.PutBits(n, 16);
    w.PutBits(65535 - n, 16);
  }

  lemma PadAfterHead(n: nat)
    requires n % 8 == 3
    ensures Padding(n) == 5
  {}

  method PutBytes(w: BitWriter, bytes: seq<byte>)
    requires w.Valid()
    modifies w, w.out
    ensures w.Valid() && w.written == old(w.written) + ByteBits(bytes)
  {
    hide ByteBits, Lsb;
    ghost var start := w.written;
    NoBytesNoBits();
    assert bytes[..0] == [];
    for i := 0 to |bytes|
      invariant w.Valid() && w.written == start + ByteBits(bytes[..i])
    {
      w.PutBits(bytes[i], 8);
      ByteBitsAppend(bytes[..i], bytes[i]);
      assert bytes[..i + 1] == bytes[..i] + [bytes[i]];
    }
    assert bytes[..|bytes|] == bytes;
  }

  lemma NoBytesNoBits()
    ensures ByteBits([]) == []
  {}

  /** `written` ends at a byte boundary and the stored blocks of `inp[pos..]` complete the stream. */
  ghost predicate StoredSoFar(written: Bits, inp: seq<byte>, pos: nat) {
    && pos <= |inp| && |written| % 8 == 0
    && written + (if pos == |inp| then [] else StoredBits(inp[pos..])) == StoredBits(inp)
  }

  /** Stored blocks of at most 65535 bytes each, until the input is used up. */
  method EmitAllStored(w: BitWriter, inp: seq<byte>)
    requires w.Valid() && w.written == [] && inp != []
    modifies w, w.out
    ensures w.Valid() && w.written == StoredBits(inp)
  {
    hide StoredSoFar, StoredBody, BlockHead, StoredBits;
    NothingStored(inp);
    var pos := 0;
    while pos < |inp|
      invariant w.Valid() && pos <= |inp| && StoredSoFar(w.written, inp, pos)
    {
      var chunk := if |inp| - pos > 65535 then 65535 else |inp| - pos;
      StoredSoFarAligned(w.written, inp, pos);
      StoredStep(w.written, inp, pos, chunk);
      EmitStored(w, inp[pos..pos + chunk], pos + chunk >= |inp|);
      pos := pos + chunk;
    }
    AllStored(w.written, inp);
  }

  lemma NothingStored(inp: seq<byte>)
    requires inp != []
    ensures StoredSoFar([], inp, 0)
  {
    assert inp[0..] == inp;
  }

  lemma AllStored(written: Bits, inp: seq<byte>)
    requires StoredSoFar(written, inp, |inp|)
    ensures written == StoredBits(inp)
  {}

  lemma StoredSoFarAligned(written: Bits, inp: seq<byte>, pos: nat)
    requires StoredSoFar(written, inp, pos)
    ensures |written| % 8 == 0
  {}

  /** The first block of the stored form, and what comes behind it. */
  lemma FirstStored(inp: seq<byte>, chunk: nat)
    requires chunk == (if |inp| > 65535 then 65535 else |inp|)
    ensures StoredBits(inp) == (BlockHead(chunk == |inp|, 0) + StoredBody(inp[..chunk])) +
                               (if chunk == |inp| then [] else StoredBits(inp[chunk..]))
  {
    hide StoredBody, BlockHead;
    assert chunk == |inp| ==> inp[..chunk] == inp;
  }

  lemma StoredStep(written: Bits, inp: seq<byte>, pos: nat, chunk: nat)
    requires StoredSoFar(written, inp, pos) && pos < |inp|
    requires chunk == if |inp| - pos > 65535 then 65535 else |inp| - pos
    ensures StoredSoFar(
      written + (BlockHead(pos + chunk >= |inp|, 0) + StoredBody(inp[pos..pos + chunk])), inp, pos + chunk)
  {
    hide StoredBody, BlockHead, StoredBits;
    var rest := inp[pos..];
    FirstStored(rest, chunk);
    assert rest[..chunk] == inp[pos..pos + chunk] && rest[chunk..] == inp[pos + chunk..];
    var block := BlockHead(pos + chunk >= |inp|, 0) + StoredBody(inp[pos..pos + chunk]);
    var behind := if pos + chunk == |inp| then [] else StoredBits(inp[pos + chunk..]);
    assert (written + block) + behind == written + (block + behind);
  }
}
