/** Bit sequences, and the writer and reader that carry them: `C-Deflate/src/bits.c`.
    The stream is packed least significant bit first; Huffman codes go out most significant
    bit first within it. */
module DeflateBits {
  import opened Arithmetic

  type byte = b: int | 0 <= b < 256

  type Bits = seq<bool>

  /** The `n` low bits of `v`, least significant first. */
  function Lsb(v: nat, n: nat): (s: Bits)
    ensures |s| == n
  {
    if n == 0 then [] else [v % 2 == 1] + Lsb(v / 2, n - 1)
  }

  /** The number a bit sequence spells, least significant bit first. */
  function Value(s: Bits): (v: nat)
    ensures v < Pow2(|s|)
  {
    if s == [] then 0 else (if s[0] then 1 else 0) + 2 * Value(s[1..])
  }

  /** The `n` low bits of `v`, most significant first: how a Huffman code goes out. */
  function Msb(v: nat, n: nat): (s: Bits)
    ensures |s| == n
  {
    if n == 0 then [] else Msb(v / 2, n - 1) + [v % 2 == 1]
  }

  function ByteBits(bytes: seq<byte>): (s: Bits)
    ensures |s| == 8 * |bytes|
  {
    if bytes == [] then [] else Lsb(bytes[0], 8) + ByteBits(bytes[1..])
  }

  function Zeros(n: nat): (s: Bits)
    ensures |s| == n
  {
    Lsb(0, n)
  }

  // ---------------------------------------------------------------- laws of bit sequences

  lemma {:induction false} ValueOfLsb(v: nat, n: nat)
    requires v < Pow2(n)
    ensures Value(Lsb(v, n)) == v
  {
    if n > 0 {
      ValueOfLsb(v / 2, n - 1);
      assert Lsb(v, n)[1..] == Lsb(v / 2, n - 1);
    }
  }

  lemma {:induction false} LsbOfValue(s: Bits)
    ensures Lsb(Value(s), |s|) == s
  {
    if s != [] {
      LsbOfValue(s[1..]);
    }
  }

  lemma {:induction false} ValueOfConcat(a: Bits, b: Bits)
    ensures Value(a + b) == Value(a) + Pow2(|a|) * Value(b)
  {
    if a == [] {
      assert a + b == b;
    } else {
      ValueOfConcat(a[1..], b);
      assert (a + b)[1..] == a[1..] + b;
      MulAssociates(2, Pow2(|a| - 1), Value(b));
    }
  }

  /** `v & ((1 << n) - 1)`. */
  function Low(v: nat, n: nat): (r: nat)
    ensures r < Pow2(n)
  {
    Value(Lsb(v, n))
  }

  /** `v >> n`. */
  function Shr(v: nat, n: nat): nat {
    if n == 0 then v else Shr(v / 2, n - 1)
  }

  /** Masking is the remainder modulo a power of two, and shifting the quotient. */
  lemma {:induction false} MaskAndShift(v: nat, n: nat)
    ensures Low(v, n) == v % Pow2(n)
    ensures v == Pow2(n) * Shr(v, n) + Low(v, n)
  {
    if n > 0 {
      MaskAndShift(v / 2, n - 1);
      assert Lsb(v, n)[1..] == Lsb(v / 2, n - 1);
      HalfRemainder(v, Pow2(n - 1));
      MulAssociates(2, Pow2(n - 1), Shr(v, n));
    }
  }

  /** Only the low bits matter: masking before writing changes nothing that is written. */
  lemma LsbMasks(v: nat, n: nat)
    ensures Lsb(Low(v, n), n) == Lsb(v, n)
  {
    LsbOfValue(Lsb(v, n));
  }

  /** Appending to a partial buffer: `buf | v << count`. */
  lemma LsbAppend(buf: nat, count: nat, v: nat, n: nat)
    requires buf < Pow2(count) && v < Pow2(n)
    ensures Lsb(buf + Pow2(count) * v, count + n) == Lsb(buf, count) + Lsb(v, n)
    ensures buf + Pow2(count) * v < Pow2(count + n)
  {
    var s := Lsb(buf, count) + Lsb(v, n);
    ValueOfConcat(Lsb(buf, count), Lsb(v, n));
    ValueOfLsb(buf, count);
    ValueOfLsb(v, n);
    LsbOfValue(s);
  }

  /** Taking from a buffer: the low `k` bits, then the rest shifted down. */
  lemma {:induction false} LsbSplit(buf: nat, k: nat, n: nat)
    requires buf < Pow2(k + n)
    ensures Lsb(buf, k + n) == Lsb(buf, k) + Lsb(Shr(buf, k), n)
    ensures Shr(buf, k) < Pow2(n)
  {
    if k > 0 {
      LsbSplit(buf / 2, k - 1, n);
    }
  }

  lemma {:induction false} ByteBitsOfConcat(a: seq<byte>, b: seq<byte>)
    ensures ByteBits(a + b) == ByteBits(a) + ByteBits(b)
  {
    if a == [] {
      assert a + b == b;
    } else {
      assert (a + b)[1..] == a[1..] + b;
      ByteBitsOfConcat(a[1..], b);
    }
  }

  lemma EightBits(v: nat)
    ensures Pow2(8) == 256 && Low(v, 8) == v % 256 && Shr(v, 8) == v / 256
  {
    assert Pow2(8) == 2 * (2 * (2 * (2 * (2 * (2 * (2 * (2 * Pow2(0))))))));
    MaskAndShift(v, 8);
    DivMod(v, 256, Shr(v, 8), Low(v, 8));
  }

  lemma ByteBitsAppend(bytes: seq<byte>, b: byte)
    ensures ByteBits(bytes + [b]) == ByteBits(bytes) + Lsb(b, 8)
  {
    ByteBitsOfConcat(bytes, [b]);
    assert ByteBits([b]) == Lsb(b, 8) + ByteBits([]);
    assert Lsb(b, 8) + [] == Lsb(b, 8);
  }

  lemma FirstByte(bytes: seq<byte>, pos: nat)
    requires pos < |bytes|
    ensures ByteBits(bytes[pos..]) == Lsb(bytes[pos], 8) + ByteBits(bytes[pos + 1..])
  {
    assert bytes[pos..][1..] == bytes[pos + 1..];
  }

  lemma SplitLowByte(buf: nat, count: nat)
    requires 8 <= count && buf < Pow2(count)
    ensures Lsb(buf, count) == Lsb(buf % 256, 8) + Lsb(buf / 256, count - 8)
    ensures buf / 256 < Pow2(count - 8)
  {
    hide Lsb, Pow2, Low, Shr;
    EightBits(buf);
    LsbSplit(buf, 8, count - 8);
    LsbMasks(buf, 8);
  }

  /** Moving the low byte of the buffer to the output keeps the bits written so far. */
  lemma EmitByte(bytes: seq<byte>, buf: nat, count: nat)
    requires 8 <= count && buf < Pow2(count)
    ensures ByteBits(bytes + [buf % 256]) + Lsb(buf / 256, count - 8) == ByteBits(bytes) + Lsb(buf, count)
    ensures buf / 256 < Pow2(count - 8)
  {
    hide Lsb, ByteBits, Pow2;
    SplitLowByte(buf, count);
    ByteBitsAppend(bytes, buf % 256);
  }

  // ---------------------------------------------------------------- writer

  /** `buf | v << count`, the bits of `v` landing above the `count` already buffered. */
  function Joined(buf: nat, count: nat, v: nat): nat {
    buf + Pow2(count) * v
  }

  /** The bit buffers are 32 bits wide.  Beside the seven bits that may be pending, a field of 25
      always fits; every field of the format is shorter. */
  const BUFFER_BITS := 32
  const MAX_FIELD := 25

  class BitWriter {
    const out: array<byte>
    var pos: nat
    var bitBuf: nat
    var bitCount: nat
    var overflow: bool             // sticky: set once, checked once at the end
    ghost var written: Bits        // every bit written since the start, in stream order

    /** Overflow is latched exactly when the bits written include a whole byte with no room. */
    ghost predicate Valid()
      reads this, out
    {
      && pos <= out.Length
      && (overflow <==> |written| >= 8 * (out.Length + 1))
      && (!overflow ==> bitCount < 8 && Buffered(written))
    }

    /** The output bytes and the bit buffer together spell `bits`. */
    ghost predicate Buffered(bits: Bits)
      reads this, out
    {
      && pos <= out.Length
      && bitBuf < Pow2(bitCount)
      && bits == ByteBits(out[..pos]) + Lsb(bitBuf, bitCount)
    }

    constructor (out: array<byte>)
      ensures Valid() && written == [] && this.out == out
    {
      this.out := out;
      pos, bitBuf, bitCount, overflow := 0, 0, 0, false;
      written := [];
    }

    /** Appends the `count` low bits of `value`. */
    method PutBits(value: nat, count: nat)
      requires Valid() && count <= MAX_FIELD
      modifies this, out
      ensures Valid() && written == old(written) + Lsb(value, count)
    {
      hide Lsb, Pow2, Low;
      if !overflow {
        LsbAppend(bitBuf, bitCount, Low(value, count), count);
        LsbMasks(value, count);
      }
      bitBuf := Joined(bitBuf, bitCount, Low(value, count));
      bitCount := bitCount + count;
      assert !overflow ==> bitCount <= BUFFER_BITS;
      written := written + Lsb(value, count);
      Drain();
    }

    /** Moves whole bytes from the buffer to the output. */
    method Drain()
      requires pos <= out.Length && (!overflow ==> Buffered(written))
      requires overflow ==> |written| >= 8 * (out.Length + 1)
      modifies this, out
      ensures Valid() && written == old(written)
    {
      while bitCount >= 8
        invariant pos <= out.Length && overflow == old(overflow) && written == old(written)
        invariant !overflow ==> Buffered(written)
        decreases bitCount
      {
        if pos >= out.Length {
          overflow := true;
          return;
        }
        EmitLowByte();
      }
    }

    method EmitLowByte()
      requires bitCount >= 8 && pos < out.Length && (!overflow ==> Buffered(written))
      modifies this, out
      ensures pos == old(pos) + 1 && bitCount == old(bitCount) - 8
      ensures overflow == old(overflow) && written == old(written)
      ensures !overflow ==> Buffered(written)
    {
      ghost var before := out[..pos];
      if !overflow { EmitByte(before, bitBuf, bitCount); }
      out[pos] := bitBuf % 256;
      pos := pos + 1;
      assert out[..pos] == before + [bitBuf % 256];
      bitBuf := bitBuf / 256;
      bitCount := bitCount - 8;
    }

    /** Appends a Huffman code, most significant bit first. */
    method PutCode(code: nat, count: nat)
      requires Valid() && count <= MAX_FIELD
      modifies this, out
      ensures Valid() && written == old(written) + Msb(code, count)
    {
      var reversed := Reverse(code, count);
      PutBits(reversed, count);
    }

    /** Pads with zero bits to a byte boundary. */
    method Align()
      requires Valid()
      modifies this, out
      ensures Valid() && written == old(written) + Zeros(Padding(|old(written)|))
    {
      hide Lsb, ByteBits, Pow2;
      ghost var pad := Zeros(Padding(|written|));
      if overflow {
        written := written + pad;
      } else {
        PaddingOfParts(pos, bitCount);
        if bitCount > 0 {
          PutBits(0, 8 - bitCount);
        } else {
          assert written + pad == written;
        }
      }
    }

    /** Flushes the last partial byte; the output is then whole bytes. */
    method Finish() returns (size: nat)
      requires Valid()
      modifies this, out
      ensures Valid() && size <= out.Length
      ensures written == old(written) + Zeros(Padding(|old(written)|))
      ensures !overflow ==> ByteBits(out[..size]) == written
    {
      Align();
      size := pos;
      if !overflow { WholeBytes(pos, bitCount); }
    }
  }

  method Reverse(code: nat, count: nat) returns (reversed: nat)
    ensures Lsb(reversed, count) == Msb(code, count)
  {
    reversed := 0;
    var i := 0;
    while i < count
      invariant i <= count
      invariant Lsb(reversed, i) == Msb(code, i) && reversed < Pow2(i)
    {
      ReverseStep(code, i, reversed);
      reversed := reversed * 2 + Shr(code, i) % 2;
      i := i + 1;
    }
  }

  lemma PaddingOfParts(pos: nat, count: nat)
    requires count < 8
    ensures Padding(8 * pos + count) == if count == 0 then 0 else 8 - count
  {}

  lemma WholeBytes(pos: nat, count: nat)
    requires count < 8 && (8 * pos + count) % 8 == 0
    ensures count == 0
  {}

  /** Bits from position `n` to the next byte boundary. */
  function Padding(n: nat): (p: nat)
    ensures p < 8 && (n + p) % 8 == 0
  {
    (8 - n % 8) % 8
  }

  lemma {:induction false} ReverseStep(code: nat, i: nat, reversed: nat)
    requires Lsb(reversed, i) == Msb(code, i) && reversed < Pow2(i)
    ensures Lsb(reversed * 2 + Shr(code, i) % 2, i + 1) == Msb(code, i + 1)
    ensures reversed * 2 + Shr(code, i) % 2 < Pow2(i + 1)
  {
    MsbTop(code, i);
    var r := reversed * 2 + Shr(code, i) % 2;
    assert r % 2 == Shr(code, i) % 2 && r / 2 == reversed;
  }

  /** The first bit out is the most significant. */
  lemma {:induction false} MsbTop(code: nat, i: nat)
    ensures Msb(code, i + 1) == [Shr(code, i) % 2 == 1] + Msb(code, i)
  {
    if i > 0 {
      MsbTop(code / 2, i - 1);
    }
  }

  // ---------------------------------------------------------------- reader

  class BitReader {
    const inp: seq<byte>
    var pos: nat
    var bitBuf: nat
    var bitCount: nat
    var underflow: bool            // sticky: zeros are fed past the end, and the fact latched
    ghost var rest: Bits           // the bits not yet taken

    ghost predicate Valid()
      reads this
    {
      Loaded() && (!underflow ==> bitCount < 8)
    }

    ghost predicate Loaded()
      reads this
    {
      pos <= |inp| && (!underflow ==> Remaining(rest))
    }

    ghost predicate Remaining(bits: Bits)
      reads this
    {
      && pos <= |inp|
      && bitBuf < Pow2(bitCount)
      && bits == Lsb(bitBuf, bitCount) + ByteBits(inp[pos..])
    }

    constructor (inp: seq<byte>)
      ensures Valid() && !underflow && this.inp == inp && rest == ByteBits(inp)
    {
      this.inp := inp;
      pos, bitBuf, bitCount, underflow := 0, 0, 0, false;
      rest := ByteBits(inp);
    }

    /** Takes `count` bits, least significant first; underflows exactly when fewer remain. */
    method TakeBits(count: nat) returns (value: nat)
      requires Valid() && count <= MAX_FIELD
      modifies this
      ensures Valid() && value < Pow2(count)
      ensures underflow <==> old(underflow) || count > |old(rest)|
      ensures !underflow ==> value == Value(old(rest)[..count]) && rest == old(rest)[count..]
    {
      hide Lsb, ByteBits, Pow2, Shr, Value;
      Refill(count);
      if !underflow {
        LsbSplit(bitBuf, count, bitCount - count);
        assert rest[..count] == Lsb(bitBuf, count);
        assert rest[count..] == Lsb(Shr(bitBuf, count), bitCount - count) + ByteBits(inp[pos..]);
        rest := rest[count..];
      }
      value := Low(bitBuf, count);
      bitBuf := Shr(bitBuf, count);
      bitCount := bitCount - count;
    }

    /** Loads bytes until `count` bits are there; they fit the buffer. */
    method Refill(count: nat)
      requires Valid() && count <= MAX_FIELD
      modifies this
      ensures Loaded() && count <= bitCount && rest == old(rest)
      ensures !underflow ==> bitCount < count + 8 && bitCount <= BUFFER_BITS
      ensures underflow <==> old(underflow) || count > |rest|
    {
      while bitCount < count
        invariant Loaded() && rest == old(rest)
        invariant !underflow ==> bitCount < count + 8
        invariant old(underflow) ==> underflow
        invariant underflow && !old(underflow) ==> count > |rest|
      {
        if pos >= |inp| {
          underflow := true;
          bitCount := bitCount + 8;
        } else {
          LoadByte();
        }
      }
    }

    method LoadByte()
      requires Loaded() && pos < |inp|
      modifies this
      ensures Loaded() && bitCount == old(bitCount) + 8
      ensures rest == old(rest) && underflow == old(underflow)
    {
      hide Lsb, ByteBits, Pow2;
      if !underflow {
        ByteFits(inp[pos]);
        LsbAppend(bitBuf, bitCount, inp[pos], 8);
        FirstByte(inp, pos);
      }
      bitBuf := Joined(bitBuf, bitCount, inp[pos]);
      pos := pos + 1;
      bitCount := bitCount + 8;
    }

    /** Drops bits up to the next byte boundary. */
    method Align()
      requires Valid()
      modifies this
      ensures Valid() && underflow == old(underflow)
      ensures !underflow ==> rest == old(rest)[|old(rest)| % 8..]
    {
      var drop := bitCount % 8;
      if !underflow { RemainderOfParts(bitCount, |inp| - pos); }
      if drop != 0 {
        if !underflow { assert drop <= |rest|; }
        var _ := TakeBits(drop);
      }
    }
  }

  lemma ByteFits(b: byte)
    ensures b < Pow2(8)
  {
    EightBits(b);
  }

  lemma RemainderOfParts(count: nat, bytes: nat)
    ensures (count + 8 * bytes) % 8 == count % 8 && count % 8 <= count + 8 * bytes
  {}
}
