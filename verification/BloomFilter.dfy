/** `Java-LSM/src/lsm/BloomFilter.java`: double hashing over an array of 64-bit words, each word a
    number below 2^64.  How many bits and hashes to use is left to the caller. */
module BloomFilters {
  import opened LsmBytes
  import opened Arithmetic

  const WORD := 0x1_0000_0000_0000_0000
  const SEED1: bv64 := 0x9E3779B97F4A7C15
  const SEED2: bv64 := 0xC2B2AE3D27D4EB4F

  // ---------------------------------------------------------------- one bit of a word

  /** `w & (1 << b)` is not zero. */
  predicate TestBit(w: nat, b: nat) {
    if b == 0 then w % 2 == 1 else TestBit(w / 2, b - 1)
  }

  /** `w | (1 << b)`. */
  function SetBit(w: nat, b: nat): nat {
    if b == 0 then (if w % 2 == 1 then w else w + 1) else 2 * SetBit(w / 2, b - 1) + w % 2
  }

  lemma {:induction false} SetBitSets(w: nat, b: nat, c: nat)
    ensures TestBit(SetBit(w, b), c) <==> c == b || TestBit(w, c)
  {
    if b > 0 && c > 0 {
      SetBitSets(w / 2, b - 1, c - 1);
      HalfOfSum(SetBit(w / 2, b - 1), w % 2);
    } else if b > 0 {
      HalfOfSum(SetBit(w / 2, b - 1), w % 2);
    }
  }

  lemma HalfOfSum(a: nat, r: nat)
    requires r < 2
    ensures (2 * a + r) / 2 == a && (2 * a + r) % 2 == r
  {}

  lemma {:induction false} SetBitFits(w: nat, b: nat, n: nat)
    requires w < Pow2(n) && b < n
    ensures SetBit(w, b) < Pow2(n)
  {
    Pow2Of(n);
    hide Pow2;
    if b > 0 {
      SetBitFits(w / 2, b - 1, n - 1);
      SetBitStep(w, b);
    }
  }

  lemma Pow2Of(n: nat)
    requires n > 0
    ensures Pow2(n) == 2 * Pow2(n - 1)
  {}

  lemma SetBitStep(w: nat, b: nat)
    requires b > 0
    ensures SetBit(w, b) == 2 * SetBit(w / 2, b - 1) + w % 2
  {}

  lemma WordIs()
    ensures Pow2(64) == WORD
  {
    hide Pow2;
    EightBits();
    Pow2Adds(8, 8);
    assert Pow2(16) == 0x1_0000;
    Pow2Adds(16, 16);
    assert Pow2(32) == 0x1_0000_0000;
    Pow2Adds(32, 32);
  }

  lemma EightBits()
    ensures Pow2(8) == 256
  {}

  // ---------------------------------------------------------------- hashing

  /** A product of longs, as bit patterns. */
  function Times(h: bv64, c: bv64): bv64 {
    h * c
  }

  function Folded(h: bv64): bv64 {
    h ^ (h >> 33)
  }

  function Stirred(h: bv64, b: Byte): bv64 {
    Times(h ^ (b as bv64), 0x100000001B3)
  }

  function HashFrom(key: seq<Byte>, h: bv64): bv64 {
    if key == [] then h else HashFrom(key[1..], Stirred(h, key[0]))
  }

  function Mixed(h: bv64): bv64 {
    Folded(Times(Folded(h), 0xFF51AFD7ED558CCD))
  }

  function Hash(key: seq<Byte>, seed: bv64): bv64 {
    Mixed(HashFrom(key, seed ^ 0xCBF29CE484222325))
  }

  /** A sum or product of longs, wrapped. */
  function Long(x: int): int {
    var u := x % WORD;
    if u >= WORD / 2 then u - WORD else u
  }

  /** The bit that hash `i` of a key stands for. */
  function Probe(key: seq<Byte>, i: nat, numBits: nat): (b: nat)
    requires numBits > 0
    ensures b < numBits
  {
    Long((Hash(key, SEED1) as int) + i * (Hash(key, SEED2) as int)) % numBits
  }

  // ---------------------------------------------------------------- filters as values

  datatype Filter = Filter(numBits: nat, numHashes: nat, bits: seq<nat>)

  ghost predicate Sound(f: Filter) {
    && 64 <= f.numBits < 64 * MAX_INT && 1 <= f.numHashes <= MAX_INT && |f.bits| == (f.numBits + 63) / 64
    && forall i :: 0 <= i < |f.bits| ==> f.bits[i] < WORD
  }

  predicate BitAt(f: Filter, b: nat)
    requires b / 64 < |f.bits|
  {
    TestBit(f.bits[b / 64], b % 64)
  }

  lemma InWords(f: Filter, b: nat)
    requires |f.bits| == (f.numBits + 63) / 64 && b < f.numBits
    ensures b / 64 < |f.bits|
  {}

  /** `mightContain`, as a statement about the bits. */
  ghost predicate Claims(f: Filter, key: seq<Byte>)
    requires f.numBits > 0 && |f.bits| == (f.numBits + 63) / 64
  {
    forall i :: 0 <= i < f.numHashes ==> Probed(f, key, i)
  }

  predicate Probed(f: Filter, key: seq<Byte>, i: nat)
    requires f.numBits > 0 && |f.bits| == (f.numBits + 63) / 64
  {
    InWords(f, Probe(key, i, f.numBits));
    BitAt(f, Probe(key, i, f.numBits))
  }

  function SetAt(f: Filter, b: nat): Filter
    requires b / 64 < |f.bits|
  {
    f.(bits := f.bits[b / 64 := SetBit(f.bits[b / 64], b % 64)])
  }

  lemma SetAtKeeps(f: Filter, b: nat)
    requires Sound(f) && b < f.numBits
    ensures b / 64 < |f.bits| && Sound(SetAt(f, b)) && BitAt(SetAt(f, b), b)
    ensures var g := SetAt(f, b); g.numBits == f.numBits && g.numHashes == f.numHashes && |g.bits| == |f.bits|
    ensures forall c :: 0 <= c < f.numBits && BitAt(f, c) ==> BitAt(SetAt(f, b), c)
  {
    hide SetBit, TestBit, Pow2;
    InWords(f, b);
    WordIs();
    SetBitFits(f.bits[b / 64], b % 64, 64);
    forall c: nat | c < f.numBits ensures c / 64 < |f.bits| && (BitAt(f, c) || c == b ==> BitAt(SetAt(f, b), c)) {
      InWords(f, c);
      SetBitSets(f.bits[b / 64], b % 64, c % 64);
    }
  }

  /** The filter after `n` hashes of a key were added. */
  function AddedUpTo(f: Filter, key: seq<Byte>, n: nat): (g: Filter)
    requires f.numBits > 0 && |f.bits| == (f.numBits + 63) / 64
    ensures g.numBits == f.numBits && g.numHashes == f.numHashes && |g.bits| == |f.bits|
  {
    if n == 0 then f
    else
      var g, b := AddedUpTo(f, key, n - 1), Probe(key, n - 1, f.numBits);
      InWords(g, b);
      SetAt(g, b)
  }

  function Added(f: Filter, key: seq<Byte>): Filter
    requires f.numBits > 0 && |f.bits| == (f.numBits + 63) / 64
  {
    AddedUpTo(f, key, f.numHashes)
  }

  /** Bits are only ever set. */
  ghost predicate Grows(f: Filter, g: Filter) {
    && g.numBits == f.numBits && g.numHashes == f.numHashes && |g.bits| == |f.bits| == (f.numBits + 63) / 64
    && forall b: nat :: b < f.numBits && BitIn(f, b) ==> BitIn(g, b)
  }

  predicate BitIn(f: Filter, b: nat) {
    b / 64 < |f.bits| && BitAt(f, b)
  }

  lemma {:induction false} AddedClaims(f: Filter, key: seq<Byte>, n: nat)
    requires Sound(f)
    ensures var g := AddedUpTo(f, key, n);
      Sound(g) && Grows(f, g) && forall i :: 0 <= i < n ==> Probed(g, key, i)
  {
    hide SetBit, TestBit, Probe, SetAt;
    if n > 0 {
      AddedClaims(f, key, n - 1);
      var g, b := AddedUpTo(f, key, n - 1), Probe(key, n - 1, f.numBits);
      SetAtKeeps(g, b);
      forall i: nat | i < n ensures Probed(SetAt(g, b), key, i) {
        InWords(g, Probe(key, i, f.numBits));
        assert i < n - 1 ==> Probed(g, key, i);
      }
    }
  }

  /** No false negatives: an added key is claimed, and so is every key claimed before. */
  lemma AddKeepsClaims(f: Filter, key: seq<Byte>, other: seq<Byte>)
    requires Sound(f)
    ensures Sound(Added(f, key)) && Claims(Added(f, key), key)
    ensures Claims(f, other) ==> Claims(Added(f, key), other)
  {
    hide Probe, BitAt, AddedUpTo;
    AddedClaims(f, key, f.numHashes);
    var g := Added(f, key);
    if Claims(f, other) {
      forall i: nat | i < f.numHashes ensures Probed(g, other, i) {
        assert Probed(f, other, i);
        var b := Probe(other, i, f.numBits);
        InWords(f, b);
        assert BitIn(f, b);
      }
    }
  }

  // ---------------------------------------------------------------- what a filter rejects

  function Empty(numBits: nat, numHashes: nat): Filter {
    Filter(numBits, numHashes, seq((numBits + 63) / 64, _ => 0))
  }

  /** The filter with these keys added, one after the other. */
  function FilterOf(numBits: nat, numHashes: nat, keys: seq<seq<Byte>>): (f: Filter)
    requires numBits > 0
    ensures f.numBits == numBits && f.numHashes == numHashes && |f.bits| == (numBits + 63) / 64
  {
    if keys == [] then Empty(numBits, numHashes)
    else Added(FilterOf(numBits, numHashes, keys[..|keys| - 1]), keys[|keys| - 1])
  }

  /** One of the first `n` hashes of the key stands for this bit. */
  ghost predicate Hits(key: seq<Byte>, n: nat, numBits: nat, b: nat)
    requires numBits > 0
  {
    exists i: nat :: i < n && Probe(key, i, numBits) == b
  }

  /** Some key does. */
  ghost predicate Set(keys: seq<seq<Byte>>, numHashes: nat, numBits: nat, b: nat)
    requires numBits > 0
  {
    exists j :: 0 <= j < |keys| && Hits(keys[j], numHashes, numBits, b)
  }

  lemma {:induction false} ZeroBit(b: nat)
    ensures !TestBit(0, b)
  {
    if b > 0 { ZeroBit(b - 1); }
  }

  lemma SetAtSets(f: Filter, b: nat, c: nat)
    requires b / 64 < |f.bits|
    ensures BitIn(SetAt(f, b), c) <==> BitIn(f, c) || (c == b && c / 64 < |f.bits|)
  {
    hide SetBit, TestBit;
    if b / 64 == c / 64 { SetBitSets(f.bits[b / 64], b % 64, c % 64); }
  }

  lemma {:induction false} AddedSets(f: Filter, key: seq<Byte>, n: nat, c: nat)
    requires f.numBits > 0 && |f.bits| == (f.numBits + 63) / 64
    ensures BitIn(AddedUpTo(f, key, n), c) <==> BitIn(f, c) || Hits(key, n, f.numBits, c)
  {
    hide SetAt, BitIn, Probe;
    if n > 0 {
      AddedSets(f, key, n - 1, c);
      var g, b := AddedUpTo(f, key, n - 1), Probe(key, n - 1, f.numBits);
      InWords(g, b);
      SetAtSets(g, b, c);
      HitsMore(key, n - 1, f.numBits, c);
    }
  }

  lemma HitsMore(key: seq<Byte>, n: nat, numBits: nat, c: nat)
    requires numBits > 0
    ensures Hits(key, n + 1, numBits, c) <==> Hits(key, n, numBits, c) || Probe(key, n, numBits) == c
  {
    hide Probe;
    if Hits(key, n + 1, numBits, c) {
      var i: nat :| i < n + 1 && Probe(key, i, numBits) == c;
      if i < n { assert Hits(key, n, numBits, c); }
    }
  }

  /** A bit is set exactly when some hash of some added key stands for it. */
  lemma {:induction false} BitsOfKeys(numBits: nat, numHashes: nat, keys: seq<seq<Byte>>, c: nat)
    requires numBits > 0
    ensures BitIn(FilterOf(numBits, numHashes, keys), c) <==> Set(keys, numHashes, numBits, c)
  {
    hide Hits, Added, BitIn;
    if keys == [] {
      NothingSet(numBits, numHashes, c);
    } else {
      var n := |keys| - 1;
      BitsOfKeys(numBits, numHashes, keys[..n], c);
      AddedBits(FilterOf(numBits, numHashes, keys[..n]), keys[n], c);
      if Set(keys, numHashes, numBits, c) {
        var j :| 0 <= j < |keys| && Hits(keys[j], numHashes, numBits, c);
        if j < n { assert keys[..n][j] == keys[j]; }
      }
    }
  }

  lemma NothingSet(numBits: nat, numHashes: nat, c: nat)
    ensures !BitIn(Empty(numBits, numHashes), c)
  {
    ZeroBit(c % 64);
  }

  lemma AddedBits(f: Filter, key: seq<Byte>, c: nat)
    requires f.numBits > 0 && |f.bits| == (f.numBits + 63) / 64
    ensures BitIn(Added(f, key), c) <==> BitIn(f, c) || Hits(key, f.numHashes, f.numBits, c)
  {
    hide BitIn, Hits, AddedUpTo;
    AddedSets(f, key, f.numHashes, c);
  }

  /** A key is claimed exactly when each of its hashes stands for a bit that some added key has set:
      the filter is wrong about a key only then, and claims nothing when it is empty. */
  lemma ClaimsExactly(numBits: nat, numHashes: nat, keys: seq<seq<Byte>>, key: seq<Byte>)
    requires numBits > 0
    ensures Claims(FilterOf(numBits, numHashes, keys), key) <==>
      forall i: nat :: i < numHashes ==> Set(keys, numHashes, numBits, Probe(key, i, numBits))
  {
    hide Set, FilterOf, Probe, BitAt;
    var f := FilterOf(numBits, numHashes, keys);
    forall i: nat | i < numHashes
      ensures Probed(f, key, i) <==> Set(keys, numHashes, numBits, Probe(key, i, numBits))
    {
      BitsOfKeys(numBits, numHashes, keys, Probe(key, i, numBits));
      InWords(f, Probe(key, i, numBits));
    }
  }

  // ---------------------------------------------------------------- the filter

  class BloomFilter {
    const numBits: nat
    const numHashes: nat
    const bits: array<nat>

    ghost function Now(): Filter
      reads bits
    {
      Filter(numBits, numHashes, bits[..])
    }

    constructor (numBits: nat, numHashes: nat)
      requires 64 <= numBits < 64 * MAX_INT && 1 <= numHashes <= MAX_INT
      ensures Sound(Now()) && fresh(bits) && this.numBits == numBits && this.numHashes == numHashes
      ensures Now() == Empty(numBits, numHashes)
    {
      this.numBits, this.numHashes := numBits, numHashes;
      bits := new nat[(numBits + 63) / 64](_ => 0);
    }

    method Add(key: seq<Byte>)
      requires Sound(Now())
      modifies bits
      ensures Now() == Added(old(Now()), key)
    {
      hide Hash, SetBit, Sound, SetAt;
      var h1 := HashOf(key, SEED1);
      var h2 := HashOf(key, SEED2);
      SoundSized(Now());
      var i: nat := 0;
      while i < numHashes
        invariant i <= numHashes && bits.Length == (numBits + 63) / 64 && numBits > 0
        invariant Now() == AddedUpTo(old(Now()), key, i)
      {
        var bit := Long((h1 as int) + i * (h2 as int)) % numBits;
        InWords(Now(), bit);
        SetAtIs(Now(), bit);
        ghost var before := bits[..];
        bits[bit / 64] := SetBit(bits[bit / 64], bit % 64);
        assert bits[..] == before[bit / 64 := SetBit(before[bit / 64], bit % 64)];
        i := i + 1;
      }
    }
  }

  lemma SoundSized(f: Filter)
    requires Sound(f)
    ensures f.numBits > 0 && |f.bits| == (f.numBits + 63) / 64
  {}

  lemma SetAtIs(f: Filter, b: nat)
    requires b / 64 < |f.bits|
    ensures SetAt(f, b) == Filter(f.numBits, f.numHashes, f.bits[b / 64 := SetBit(f.bits[b / 64], b % 64)])
  {}

  /** `hash`. */
  method HashOf(key: seq<Byte>, seed: bv64) returns (h: bv64)
    ensures h == Hash(key, seed)
  {
    hide Mixed, Stirred, Folded, Times;
    h := seed ^ 0xCBF29CE484222325;
    var i := 0;
    while i < |key|
      invariant 0 <= i <= |key|
      invariant HashFrom(key, seed ^ 0xCBF29CE484222325) == HashFrom(key[i..], h)
    {
      assert key[i..][1..] == key[i + 1..];
      h := Stirred(h, key[i]);
      i := i + 1;
    }
    MixedIs(h);
    h := Folded(h);
    h := Times(h, 0xFF51AFD7ED558CCD);
    h := Folded(h);
  }

  lemma MixedIs(h: bv64)
    ensures Mixed(h) == Folded(Times(Folded(h), 0xFF51AFD7ED558CCD))
  {
    hide Folded, Times;
  }

  /** `mightContain`, of a filter that is only read. */
  method MightContain(f: Filter, key: seq<Byte>) returns (r: bool)
    requires Sound(f)
    ensures r <==> Claims(f, key)
  {
    hide Hash, TestBit;
    var h1 := HashOf(key, SEED1);
    var h2 := HashOf(key, SEED2);
    var i: nat := 0;
    while i < f.numHashes
      invariant i <= f.numHashes
      invariant forall j :: 0 <= j < i ==> Probed(f, key, j)
    {
      var bit := Long((h1 as int) + i * (h2 as int)) % f.numBits;
      InWords(f, bit);
      assert Probed(f, key, i) <==> BitAt(f, bit);
      if !TestBit(f.bits[bit / 64], bit % 64) { return false; }
      i := i + 1;
    }
    return true;
  }
}
