/** Rounding in `C-Allocator/src/balloc.c`: the bit trick of ALIGN_UP, for powers of two and for
    other alignments, and the 64-bit wrap of very large requests. */
module AllocSizes {
  import opened Arithmetic

  const WORD_LIMIT := 0x1_0000_0000_0000_0000
  const CHUNK_BYTES := 0x10_0000
  const PAGE_BYTES := 4096

  /** Up to this, no sum on the way to the operating system wraps. */
  const MAX_REQUEST := WORD_LIMIT / 2 - 80

  /** Up to this, the block for a request has room for it. */
  const MAX_ROOM := WORD_LIMIT - 32

  /** `x & ~m`, bit by bit. */
  function AndNot(x: nat, m: nat): (r: nat)
    ensures r <= x
  {
    if x == 0 then 0 else 2 * AndNot(x / 2, m / 2) + if x % 2 == 1 && m % 2 == 0 then 1 else 0
  }

  /** Clearing the bits of `m` never takes away more than `m`. */
  lemma {:induction false} AndNotLoses(x: nat, m: nat)
    ensures AndNot(x, m) + m >= x
  {
    if x > 0 { AndNotLoses(x / 2, m / 2); }
  }

  /** When the mask holds all of the low `k` bits, the result has none of them. */
  lemma {:induction false} AndNotClears(x: nat, m: nat, k: nat)
    requires (m + 1) % Pow2(k) == 0
    ensures AndNot(x, m) % Pow2(k) == 0
  {
    hide AndNot, Pow2;
    if k == 0 {
      Pow2Of(0);
      DivMod(AndNot(x, m), 1, AndNot(x, m), 0);
    } else if x == 0 {
      NothingLeft(m);
      DivMod(0, Pow2(k), 0, 0);
    } else {
      Pow2Of(k);
      HalfMask(m, Pow2(k - 1));
      AndNotStep(x, m);
      AndNotClears(x / 2, m / 2, k - 1);
      DoubleMultiple(AndNot(x / 2, m / 2), Pow2(k - 1));
    }
  }

  lemma Pow2Of(k: nat)
    ensures Pow2(k) == if k == 0 then 1 else 2 * Pow2(k - 1)
  {}

  lemma NothingLeft(m: nat)
    ensures AndNot(0, m) == 0
  {}

  lemma AndNotStep(x: nat, m: nat)
    requires m % 2 == 1
    ensures AndNot(x, m) == 2 * AndNot(x / 2, m / 2)
  {}

  lemma HalfMask(m: nat, e: nat)
    requires e > 0 && (m + 1) % (2 * e) == 0
    ensures m % 2 == 1 && (m / 2 + 1) % e == 0
  {
    var q := (m + 1) / (2 * e);
    assert m + 1 == (2 * e) * q;
    MulAssociates(2, e, q);
    HalfOf(m, e * q);
    DivMod(m / 2 + 1, e, q, 0);
  }

  lemma HalfOf(m: nat, t: int)
    requires m + 1 == 2 * t
    ensures m % 2 == 1 && m / 2 + 1 == t
  {}

  lemma DoubleMultiple(a: nat, e: nat)
    requires e > 0 && a % e == 0
    ensures (2 * a) % (2 * e) == 0
  {
    var q := a / e;
    MulAssociates(2, e, q);
    DivMod(2 * a, 2 * e, q, 0);
  }

  // ---------------------------------------------------------------- alignment

  /** ALIGN_UP. */
  function AlignUp(n: nat, a: nat): nat
    requires a >= 1
  {
    AndNot(n + a - 1, a - 1)
  }

  /** Rounding up never rounds below, whatever the alignment. */
  lemma AlignUpReaches(n: nat, a: nat)
    requires a >= 1
    ensures n <= AlignUp(n, a) <= n + a - 1
  {
    AndNotLoses(n + a - 1, a - 1);
  }

  lemma AlignUpMultiple(n: nat, a: nat, k: nat)
    requires a >= 1 && a % Pow2(k) == 0
    ensures AlignUp(n, a) % Pow2(k) == 0
  {
    AndNotClears(n + a - 1, a - 1, k);
  }

  lemma PowersUsed()
    ensures Pow2(4) == 16 && Pow2(12) == PAGE_BYTES && Pow2(64) == WORD_LIMIT
  {
    Sixteen();
    hide Pow2;
    Pow2Adds(4, 4);
    Pow2Adds(8, 4);
    Pow2Adds(8, 8);
    Pow2Adds(16, 16);
    Pow2Adds(32, 32);
  }

  lemma Sixteen()
    ensures Pow2(4) == 16
  {
    assert Pow2(2) == 4;
  }

  /** An aligned number stays as it is. */
  lemma AlignedStays(n: nat)
    requires n % 16 == 0
    ensures AlignUp(n, 16) == n
  {
    hide AlignUp;
    AlignUpReaches(n, 16);
    PowersUsed();
    AlignUpMultiple(n, 16, 4);
  }

  // ---------------------------------------------------------------- requests

  /** Bytes of a block for a request, with size_t arithmetic. */
  function BlockBytes(size: nat): nat {
    var rounded := AndNot((size + 16 + 15) % WORD_LIMIT, 15);
    if rounded < 32 then 32 else rounded
  }

  /** The block has room for the request exactly when the request is not within 31 of the limit. */
  lemma BlockBytesSuffice(size: nat)
    requires size < WORD_LIMIT
    ensures BlockBytes(size) >= size + 16 <==> size <= MAX_ROOM
    ensures BlockBytes(size) % 16 == 0 && BlockBytes(size) >= 32
  {
    var t := if size + 31 < WORD_LIMIT then size + 31 else size + 31 - WORD_LIMIT;
    assert (size + 16 + 15) % WORD_LIMIT == t;
    hide AndNot;
    AndNotLoses(t, 15);
    PowersUsed();
    AndNotClears(t, 15, 4);
  }

  /** Nearer to the limit the rounding wraps, to the smallest block. */
  lemma BlockBytesWrapped(size: nat)
    requires size < WORD_LIMIT
    ensures size > MAX_ROOM ==> BlockBytes(size) == 32
  {
    if size > MAX_ROOM { assert (size + 16 + 15) % WORD_LIMIT == size + 31 - WORD_LIMIT; }
  }

  /** The least block that will do: no smaller one has room and is aligned. */
  lemma BlockBytesLeast(size: nat, other: nat)
    requires size <= MAX_ROOM && other % 16 == 0 && other >= 32 && other >= size + 16
    ensures BlockBytes(size) <= other
  {
    var t := size + 31;
    hide AndNot, Pow2;
    PowersUsed();
    AndNotClears(t, 15, 4);
    MultiplesApart(AndNot(t, 15), other);
  }

  lemma MultiplesApart(a: nat, b: nat)
    requires a % 16 == 0 && b % 16 == 0 && a < b + 16
    ensures a <= b
  {}

  /** `brealloc` copies the old payload of a block it has outgrown.  It fits the block asked for
      exactly when the request did not wrap, or the old block was of the smallest size. */
  lemma CopyFits(size: nat, payload: nat)
    requires size < WORD_LIMIT && 16 <= payload < size
    ensures payload <= BlockBytes(size) - 16 <==> size <= MAX_ROOM || payload == 16
  {
    hide AndNot;
    BlockBytesSuffice(size);
    BlockBytesWrapped(size);
  }

  /** The overflow check of `bcalloc`. */
  predicate CallocRefuses(nmemb: nat, size: nat) {
    nmemb > 0 && size > (WORD_LIMIT - 1) / nmemb
  }

  /** It refuses exactly the products that do not fit a word.  What passes is filled wholly: that fits
      the block asked for exactly when the product leaves room for the rounding, too. */
  lemma CallocFits(nmemb: nat, size: nat)
    requires size < WORD_LIMIT
    ensures CallocRefuses(nmemb, size) <==> nmemb * size >= WORD_LIMIT
    ensures !CallocRefuses(nmemb, size) ==>
      (nmemb * size <= BlockBytes(nmemb * size) - 16 <==> nmemb * size <= MAX_ROOM)
  {
    hide BlockBytes;
    if nmemb > 0 { QuotientBound(WORD_LIMIT - 1, nmemb, size); }
    if nmemb * size < WORD_LIMIT { BlockBytesSuffice(nmemb * size); }
  }

  lemma QuotientBound(n: nat, d: nat, x: nat)
    requires d > 0
    ensures x > n / d <==> d * x > n
  {
    var q, r := n / d, n % d;
    assert n == d * q + r && 0 <= r < d;
    if x > q {
      MulGrows(d, q + 1, x);
    } else {
      MulGrows(d, x, q);
    }
  }

  lemma {:induction false} MulGrows(d: nat, x: nat, y: nat)
    requires x <= y
    ensures d * x <= d * y
  {
    assert d * y == d * x + d * (y - x);
  }

  /** One member of the greatest size passes the check, and gets the smallest block. */
  lemma CallocOverruns()
    ensures !CallocRefuses(1, WORD_LIMIT - 1) && BlockBytes(WORD_LIMIT - 1) == 32
  {
    BlockBytesWrapped(WORD_LIMIT - 1);
  }

  // ---------------------------------------------------------------- what grow asks for

  /** ALIGN_UP in size_t arithmetic. */
  function AlignUpWrapped(n: nat, a: nat): nat
    requires a < WORD_LIMIT
  {
    AndNot((n + a + (WORD_LIMIT - 1)) % WORD_LIMIT, (a + (WORD_LIMIT - 1)) % WORD_LIMIT)
  }

  /** The alignment `grow` rounds to: for large blocks the block itself, in whole pages. */
  function MapAlignment(need: nat): (a: nat)
    ensures a < WORD_LIMIT
  {
    if CHUNK_BYTES > need then CHUNK_BYTES else
      var a := AlignUpWrapped(need, PAGE_BYTES);
      assert a < WORD_LIMIT;
      a
  }

  /** Bytes asked of the operating system for a block: chunk header, framing and rounding included. */
  function MapBytes(need: nat): nat {
    AlignUpWrapped(need + 56, MapAlignment(need))
  }

  /** Without a wrap it is the rounding. */
  lemma AlignsUp(n: nat, a: nat)
    requires 1 <= a < WORD_LIMIT && n + a - 1 < WORD_LIMIT
    ensures AlignUpWrapped(n, a) == AlignUp(n, a)
  {
    hide AndNot;
    assert (n + a + (WORD_LIMIT - 1)) % WORD_LIMIT == n + a - 1 && (a + (WORD_LIMIT - 1)) % WORD_LIMIT == a - 1;
  }

  /** With one, it falls below what was to be rounded up. */
  lemma WrapsLow(n: nat, a: nat)
    requires 1 <= a < WORD_LIMIT && WORD_LIMIT <= n + a - 1 < 2 * WORD_LIMIT
    ensures AlignUpWrapped(n, a) <= n + a - 1 - WORD_LIMIT
  {
    hide AndNot;
    assert (n + a + (WORD_LIMIT - 1)) % WORD_LIMIT == n + a - 1 - WORD_LIMIT;
  }

  /** An alignment that has itself wrapped to nothing masks everything. */
  lemma AlignedToNothing(n: nat)
    ensures AlignUpWrapped(n, 0) == 0
  {
    hide AndNot, Pow2;
    var x := (n + (WORD_LIMIT - 1)) % WORD_LIMIT;
    PowersUsed();
    AndNotClears(x, WORD_LIMIT - 1, 64);
  }

  lemma AlignmentIs(need: nat)
    requires need < WORD_LIMIT
    ensures MapAlignment(need) % PAGE_BYTES == 0
    ensures need + PAGE_BYTES - 1 >= WORD_LIMIT ==> MapAlignment(need) == 0
    ensures need + PAGE_BYTES - 1 < WORD_LIMIT ==> MapAlignment(need) >= need && MapAlignment(need) >= CHUNK_BYTES
    ensures CHUNK_BYTES <= need ==> MapAlignment(need) < need + PAGE_BYTES
    ensures CHUNK_BYTES > need ==> MapAlignment(need) == CHUNK_BYTES
  {
    hide AndNot, Pow2, AlignUp, AlignUpWrapped;
    PowersUsed();
    if need >= CHUNK_BYTES {
      if need + PAGE_BYTES - 1 < WORD_LIMIT {
        AlignsUp(need, PAGE_BYTES);
        AlignUpReaches(need, PAGE_BYTES);
        AlignUpMultiple(need, PAGE_BYTES, 12);
      } else {
        WrapsLow(need, PAGE_BYTES);
        WrappedMultiple(need, PAGE_BYTES, 12);
        NoMultipleBelow(MapAlignment(need));
      }
    }
  }

  lemma WrappedMultiple(n: nat, a: nat, k: nat)
    requires 1 <= a < WORD_LIMIT && a % Pow2(k) == 0
    ensures AlignUpWrapped(n, a) % Pow2(k) == 0
  {
    hide AndNot, Pow2;
    AndNotClears((n + a + (WORD_LIMIT - 1)) % WORD_LIMIT, a - 1, k);
  }

  lemma NoMultipleBelow(n: nat)
    requires n % PAGE_BYTES == 0 && n < PAGE_BYTES
    ensures n == 0
  {}

  /** What is asked for holds the block and its frame exactly up to half the address space.  Beyond,
      the sum has wrapped, and less than the block alone is asked for. */
  lemma MapBytesReach(need: nat)
    requires need < WORD_LIMIT
    ensures MapBytes(need) >= need + 56 <==> MapAlignment(need) != 0 && need + 55 + MapAlignment(need) < WORD_LIMIT
    ensures MapBytes(need) >= need + 56 <==> need <= WORD_LIMIT / 2 - 56
    ensures need > WORD_LIMIT / 2 - 56 ==> MapBytes(need) < need
    ensures MapBytes(need) % PAGE_BYTES == 0 && MapBytes(need) < WORD_LIMIT
  {
    hide AndNot, Pow2, AlignUp, AlignUpWrapped, MapAlignment;
    var a := MapAlignment(need);
    PowersUsed();
    AlignmentIs(need);
    if a == 0 {
      AlignedToNothing(need + 56);
    } else {
      WrappedMultiple(need + 56, a, 12);
      HalfOrMore(need, a);
      if need + 55 + a < WORD_LIMIT {
        AlignsUp(need + 56, a);
        AlignUpReaches(need + 56, a);
      } else {
        WrapsLow(need + 56, a);
      }
    }
  }

  /** Nothing is wasted on it beyond the rounding: a block under a mebibyte asks for one, or for two when
      its frame no longer fits the first; a larger one for less than twice itself and a page or so. */
  lemma MapBytesLeast(need: nat)
    requires need <= WORD_LIMIT / 2 - 56
    ensures need < CHUNK_BYTES ==>
      MapBytes(need) == if need + 56 <= CHUNK_BYTES then CHUNK_BYTES else 2 * CHUNK_BYTES
    ensures need >= CHUNK_BYTES ==> MapBytes(need) < 2 * need + PAGE_BYTES + 55
  {
    hide AndNot, Pow2, AlignUp, AlignUpWrapped, MapAlignment;
    var a := MapAlignment(need);
    AlignmentIs(need);
    HalfOrMore(need, a);
    AlignsUp(need + 56, a);
    AlignUpReaches(need + 56, a);
    if need < CHUNK_BYTES {
      Mebibyte();
      AlignUpMultiple(need + 56, CHUNK_BYTES, 20);
      OneOrTwo(AlignUp(need + 56, CHUNK_BYTES), need + 56);
    }
  }

  lemma Mebibyte()
    ensures Pow2(20) == CHUNK_BYTES
  {
    Sixteen();
    hide Pow2;
    Pow2Adds(4, 4);
    Pow2Adds(8, 8);
    Pow2Adds(16, 4);
  }

  lemma OneOrTwo(total: nat, n: nat)
    requires total % CHUNK_BYTES == 0 && 0 < n <= total < n + CHUNK_BYTES && n < 2 * CHUNK_BYTES
    ensures total == if n <= CHUNK_BYTES then CHUNK_BYTES else 2 * CHUNK_BYTES
  {}

  lemma HalfOrMore(need: nat, a: nat)
    requires a % PAGE_BYTES == 0 && (need >= CHUNK_BYTES ==> need <= a < need + PAGE_BYTES)
    requires need < CHUNK_BYTES ==> a == CHUNK_BYTES
    ensures need + 55 + a < WORD_LIMIT <==> need <= WORD_LIMIT / 2 - 56
  {}

  /** The requests whose block and frame are asked for without a wrap: those that leave room for the
      rounding, and those so near the limit that the block size itself has wrapped. */
  predicate Mappable(size: nat) {
    size <= MAX_REQUEST || size > MAX_ROOM
  }

  lemma MappableIs(size: nat)
    requires size < WORD_LIMIT
    ensures BlockBytes(size) < WORD_LIMIT
    ensures Mappable(size) <==> BlockBytes(size) <= WORD_LIMIT / 2 - 56
    ensures Mappable(size) <==> MapBytes(BlockBytes(size)) >= BlockBytes(size) + 56
    ensures !Mappable(size) ==> MapBytes(BlockBytes(size)) < BlockBytes(size)
  {
    hide MapBytes, AndNot;
    BlockBytesSuffice(size);
    BlockBytesWrapped(size);
    BlockBytesBelow(size);
    MapBytesReach(BlockBytes(size));
  }

  lemma BlockBytesBelow(size: nat)
    requires size < WORD_LIMIT
    ensures BlockBytes(size) < WORD_LIMIT && (size <= MAX_ROOM ==> BlockBytes(size) <= size + 32)
    ensures size <= MAX_REQUEST ==> BlockBytes(size) <= WORD_LIMIT / 2 - 64
    ensures MAX_REQUEST < size <= MAX_ROOM ==> BlockBytes(size) > WORD_LIMIT / 2 - 56
  {
    BlockBytesSuffice(size);
    hide AndNot;
  }

  /** For half the address space a single page is asked for. */
  lemma HalfIsTooMuch()
    ensures !Mappable(WORD_LIMIT / 2)
    ensures BlockBytes(WORD_LIMIT / 2) == WORD_LIMIT / 2 + 16 && MapBytes(WORD_LIMIT / 2 + 16) == PAGE_BYTES
  {
    hide AndNot, Pow2;
    var half := WORD_LIMIT / 2;
    PowersUsed();
    AndNotLoses(half + 31, 15);
    AndNotClears(half + 31, 15, 4);
    assert half % 16 == 0;
    assert BlockBytes(half) == half + 16;
    AlignmentIs(half + 16);
    assert MapAlignment(half + 16) == half + PAGE_BYTES;
    TopBitStays(PAGE_BYTES + 71, WORD_LIMIT / 2 + PAGE_BYTES - 1, 12, WORD_LIMIT / 0x4000);
  }

  /** Clearing the `k` low bits of a number of `k` bits more one leaves its top bit. */
  lemma {:induction false} TopBitStays(x: nat, m: nat, k: nat, high: nat)
    requires Pow2(k) <= x < 2 * Pow2(k) && m == 2 * Pow2(k) * high + Pow2(k) - 1
    ensures AndNot(x, m) == Pow2(k)
  {
    hide AndNot, Pow2;
    Pow2Of(k);
    if k == 0 {
      NoLowBits(m);
    } else {
      var p := Pow2(k - 1);
      var half := p * high;
      assert 2 * p * high == 2 * half && 2 * (2 * p) * high == 4 * half;
      assert m == 4 * half + 2 * p - 1 && m / 2 == 2 * half + p - 1;
      AndNotStep(x, m);
      TopBitStays(x / 2, m / 2, k - 1, high);
    }
  }

  lemma NoLowBits(m: nat)
    requires m % 2 == 0
    ensures AndNot(1, m) == 1
  {
    NothingLeft(m / 2);
  }
}
