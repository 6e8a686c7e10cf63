/** Bytes and big-endian numbers, as `Java-LSM` writes them to its files. */
module LsmBytes {

  type Byte = b: int | 0 <= b < 256

  const MAX_INT := 0x7fff_ffff

  /** A Java byte array: its length is an int. */
  type Bytes = s: seq<Byte> | |s| <= MAX_INT

  /** The lowest `k` bytes of `n`, most significant first. */
  function Num(n: nat, k: nat): (s: seq<Byte>)
    ensures |s| == k
  {
    if k == 0 then [] else Num(n / 256, k - 1) + [n % 256]
  }

  function NumberIn(s: seq<Byte>): nat {
    if s == [] then 0 else 256 * NumberIn(s[..|s| - 1]) + s[|s| - 1]
  }

  function Pow256(k: nat): nat {
    if k == 0 then 1 else 256 * Pow256(k - 1)
  }

  /** The first byte weighs most. */
  lemma {:induction false} FirstWeighsMost(s: seq<Byte>)
    requires s != []
    ensures NumberIn(s) == s[0] * Pow256(|s| - 1) + NumberIn(s[1..])
  {
    var n := |s| - 1;
    if n > 0 {
      FirstWeighsMost(s[..n]);
      assert s[1..][..n - 1] == s[..n][1..];
      Heavier(s[0], Pow256(n - 1));
    } else {
      assert s[..n] == [] == s[1..];
    }
  }

  lemma Heavier(a: nat, p: nat)
    ensures 256 * (a * p) == a * (256 * p)
  {}

  lemma {:induction false} NumRoundTrip(n: nat, k: nat)
    requires n < Pow256(k)
    ensures NumberIn(Num(n, k)) == n
  {
    if k > 0 {
      NumRoundTrip(n / 256, k - 1);
      assert Num(n, k)[..k - 1] == Num(n / 256, k - 1);
    }
  }

  lemma {:induction false} ValueRange(s: seq<Byte>)
    ensures NumberIn(s) < Pow256(|s|)
  {
    if s != [] { ValueRange(s[..|s| - 1]); }
  }

  lemma Ranges()
    ensures Pow256(4) == 0x1_0000_0000 && Pow256(8) == 0x1_0000_0000_0000_0000
  {
    assert Pow256(2) == 0x1_0000 && Pow256(6) == 0x1_0000_0000_0000;
  }

  /** `readInt`: four bytes in two's complement. */
  function Int(s: seq<Byte>): (n: int)
    requires |s| == 4
    ensures n <= MAX_INT
  {
    ValueRange(s);
    Ranges();
    var n := NumberIn(s);
    if n > MAX_INT then n - 0x1_0000_0000 else n
  }

  lemma IntRoundTrip(n: nat)
    requires n <= MAX_INT
    ensures Int(Num(n, 4)) == n
  {
    Ranges();
    NumRoundTrip(n, 4);
  }

  lemma LongRoundTrip(n: nat)
    requires n < 0x1_0000_0000_0000_0000
    ensures NumberIn(Num(n, 8)) == n
  {
    Ranges();
    NumRoundTrip(n, 8);
  }

  /** How keys become bytes and back; keys are ordered as integers are.  A coding need not cover all
      of them: a Java string with half a surrogate pair in it does not survive UTF-8 either. */
  datatype Coding = Coding(enc: int -> Bytes, dec: seq<Byte> -> int)

  /** The key survives being written and read. */
  ghost predicate Codable(cd: Coding, k: int) {
    cd.dec(cd.enc(k)) == k
  }

  // ---------------------------------------------------------------- pieces of a file

  /** `part` stands in `file` at `pos`. */
  ghost predicate StandsAt(file: seq<Byte>, pos: int, part: seq<Byte>) {
    0 <= pos && pos + |part| <= |file| && file[pos..pos + |part|] == part
  }

  lemma PartOf(file: seq<Byte>, pos: int, a: seq<Byte>, b: seq<Byte>)
    requires StandsAt(file, pos, a + b)
    ensures StandsAt(file, pos, a) && StandsAt(file, pos + |a|, b)
  {
    var whole := file[pos..pos + |a + b|];
    assert whole[..|a|] == a && whole[|a|..] == b;
    assert file[pos..pos + |a|] == whole[..|a|];
    assert file[pos + |a|..pos + |a| + |b|] == whole[|a|..];
  }

  lemma Joined(a: seq<Byte>, b: seq<Byte>, c: seq<Byte>)
    ensures StandsAt(a + b + c, |a|, b)
  {
    assert (a + b + c)[|a|..|a| + |b|] == b;
  }
}
