/** The fixed code of a compressed block, over 286 literal and 30 distance symbols. */
module DeflateFixed {
  import opened Arithmetic
  import opened DeflateTables
  import opened HuffmanCodes
  import opened HuffmanKraft
  import opened CodeLengths
  import opened DeflateFormat
  import opened DeflateEncoding

  lemma {:induction false} CountOfConcat(a: seq<nat>, b: seq<nat>, v: nat)
    ensures Count(a + b, v) == Count(a, v) + Count(b, v)
  {
    if b == [] {
      assert a + b == a;
    } else {
      var n := |b| - 1;
      assert (a + b)[..|a| + n] == a + b[..n];
      CountOfConcat(a, b[..n], v);
    }
  }

  lemma {:induction false} CountOfCopies(x: nat, k: nat, v: nat)
    ensures Count(Copies(x, k), v) == if x == v then k else 0
  {
    if k > 0 {
      assert Copies(x, k)[..k - 1] == Copies(x, k - 1);
      CountOfCopies(x, k - 1, v);
    }
  }

  lemma FixedLitCounts(v: nat)
    ensures Count(FixedLit(), v) == if v == 8 then 150 else if v == 9 then 112 else if v == 7 then 24 else 0
  {
    var a, b, c, d := Copies(8, 144), Copies(9, 112), Copies(7, 24), Copies(8, 6);
    assert FixedLit() == a + b + c + d;
    CountOfConcat(a + b + c, d, v);
    CountOfConcat(a + b, c, v);
    CountOfConcat(a, b, v);
    CountOfCopies(8, 144, v);
    CountOfCopies(9, 112, v);
    CountOfCopies(7, 24, v);
    CountOfCopies(8, 6, v);
  }

  lemma {:induction false} FixedLitLeft(b: nat)
    requires b <= 6
    ensures Left(FixedLit(), b) == Pow2(b)
  {
    if b > 0 {
      FixedLitLeft(b - 1);
      FixedLitCounts(b);
    }
  }

  /** The fixed literal code is under-subscribed: 286 symbols, not 288, share it. */
  lemma FixedLitAccepted()
    ensures Accepted(FixedLit()) && Left(FixedLit(), 9) == 4
  {
    var s := FixedLit();
    FixedLitLeft(6);
    FixedLitCounts(7);
    FixedLitCounts(8);
    FixedLitCounts(9);
    SmallPowers();
    hide Count, Pow2;
    assert Left(s, 7) == 2 * Left(s, 6) - Count(s, 7);
    assert Left(s, 8) == 2 * Left(s, 7) - Count(s, 8);
    assert Left(s, 9) == 2 * Left(s, 8) - Count(s, 9);
    LeftAtLimit(s, 9);
  }

  lemma LeftAtLimit(s: seq<nat>, longest: nat)
    requires longest <= MAX_CODE_BITS && Left(s, longest) >= 0
    requires forall i :: 0 <= i < |s| ==> s[i] <= longest
    ensures Accepted(s)
  {
    LeftStays(s, longest, MAX_CODE_BITS);
    forall b | 1 <= b <= MAX_CODE_BITS ensures Left(s, b) >= 0 { LeftShrinks(s, b, MAX_CODE_BITS); }
  }

  lemma {:induction false} FixedDistLeft(b: nat)
    requires b <= 5
    ensures Left(FixedDist(), b) == if b < 5 then Pow2(b) else 2
  {
    if b > 0 {
      FixedDistLeft(b - 1);
      CountOfCopies(5, NUM_DISTANCES, b);
      SmallPowers();
    }
  }

  lemma FixedDistAccepted()
    ensures Accepted(FixedDist())
  {
    FixedDistLeft(5);
    LeftAtLimit(FixedDist(), 5);
  }

  lemma FixedHasCodes(i: nat)
    ensures i < NUM_LITERALS ==> HasCode(FixedLit(), i)
    ensures i < NUM_DISTANCES ==> HasCode(FixedDist(), i)
  {
    FixedLitAccepted();
    FixedDistAccepted();
  }

  // ---------------------------------------------------------------- the codes themselves

  /** The fixed literal codes as the table in section 3.2.6 of RFC 1951 gives them. */
  function StandardCode(i: nat): nat
    requires i < NUM_LITERALS
  {
    if i < 144 then 0x30 + i
    else if i < 256 then 0x190 + (i - 144)
    else if i < 280 then i - 256
    else 0xC0 + (i - 280)
  }

  /** How many of the first `i` symbols have length `b`. */
  lemma FixedRank(i: nat)
    requires i < NUM_LITERALS
    ensures Rank(FixedLit(), i) == if i < 144 then i else if i < 256 then i - 144 else if i < 280 then i - 256
      else 144 + (i - 280)
  {
    var s := FixedLit();
    if i < 144 {
      assert s[..i] == Copies(8, i);
      CountOfCopies(8, i, 8);
    } else if i < 256 {
      assert s[..i] == Copies(8, 144) + Copies(9, i - 144);
      CountOfConcat(Copies(8, 144), Copies(9, i - 144), 9);
      CountOfCopies(8, 144, 9);
      CountOfCopies(9, i - 144, 9);
    } else if i < 280 {
      assert s[..i] == Copies(8, 144) + Copies(9, 112) + Copies(7, i - 256);
      CountOfConcat(Copies(8, 144) + Copies(9, 112), Copies(7, i - 256), 7);
      CountOfConcat(Copies(8, 144), Copies(9, 112), 7);
      CountOfCopies(8, 144, 7);
      CountOfCopies(9, 112, 7);
      CountOfCopies(7, i - 256, 7);
    } else {
      assert s[..i] == Copies(8, 144) + Copies(9, 112) + Copies(7, 24) + Copies(8, i - 280);
      CountOfConcat(Copies(8, 144) + Copies(9, 112) + Copies(7, 24), Copies(8, i - 280), 8);
      CountOfConcat(Copies(8, 144) + Copies(9, 112), Copies(7, 24), 8);
      CountOfConcat(Copies(8, 144), Copies(9, 112), 8);
      CountOfCopies(8, 144, 8);
      CountOfCopies(9, 112, 8);
      CountOfCopies(7, 24, 8);
      CountOfCopies(8, i - 280, 8);
    }
  }

  lemma {:induction false} FixedFirstShort(b: nat)
    requires b <= 7
    ensures First(FixedLit(), b) == 0
  {
    if b > 1 {
      FixedFirstShort(b - 1);
      FixedLitCounts(b - 1);
    }
  }

  /** Sharing the code space among 286 symbols, not 288, moves the nine-bit codes four down.  The code
      of a symbol is the standard one exactly for all others. */
  lemma FixedCodes(i: nat)
    requires i < NUM_LITERALS
    ensures Code(FixedLit(), i) == StandardCode(i) - (if 144 <= i < 256 then 4 else 0)
    ensures Code(FixedLit(), i) == StandardCode(i) <==> !(144 <= i < 256)
  {
    var s := FixedLit();
    FixedRank(i);
    FixedFirstShort(7);
    FixedLitCounts(7);
    FixedLitCounts(8);
    hide Count, Rank;
    assert First(s, 8) == 2 * (First(s, 7) + Count(s, 7));
    assert First(s, 9) == 2 * (First(s, 8) + Count(s, 8));
  }

  /** The distance codes are the numbers themselves, in five bits. */
  lemma FixedDistCodes(i: nat)
    requires i < NUM_DISTANCES
    ensures Code(FixedDist(), i) == i && FixedDist()[i] == 5
  {
    assert FixedDist()[..i] == Copies(5, i);
    CountOfCopies(5, i, 5);
    FixedDistFirst(5);
  }

  lemma {:induction false} FixedDistFirst(b: nat)
    requires b <= 5
    ensures First(FixedDist(), b) == 0
  {
    if b > 1 {
      FixedDistFirst(b - 1);
      CountOfCopies(5, NUM_DISTANCES, b - 1);
    }
  }
}
