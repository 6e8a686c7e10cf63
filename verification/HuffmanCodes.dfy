/** Canonical Huffman codes: the rule of section 3.2.2 of RFC 1951 that turns bit lengths into
    codes, and its reading backwards.  A code is a sequence of lengths, zero for unused symbols. */
module HuffmanCodes {
  import opened Options
  import opened Arithmetic
  import opened DeflateBits
  import opened DeflateTables

  /** How many symbols have length `b`. */
  function Count(s: seq<nat>, b: nat): (c: nat)
    ensures c <= |s|
  {
    if s == [] then 0
    else Count(s[..|s| - 1], b) + (if s[|s| - 1] == b then 1 else 0)
  }

  /** The first code of length `b`. */
  function First(s: seq<nat>, b: nat): nat {
    if b <= 1 then 0 else 2 * (First(s, b - 1) + Count(s, b - 1))
  }

  /** A symbol's place among the symbols of its own length. */
  function Rank(s: seq<nat>, i: nat): nat
    requires i < |s|
  {
    Count(s[..i], s[i])
  }

  function Code(s: seq<nat>, i: nat): nat
    requires i < |s|
  {
    First(s, s[i]) + Rank(s, i)
  }

  /** Codes of length `b` left unassigned once all shorter ones are: negative when over-subscribed. */
  function Left(s: seq<nat>, b: nat): int {
    if b == 0 then 1 else 2 * Left(s, b - 1) - Count(s, b)
  }

  /** The lengths a decoder accepts: none too long, and no length over-subscribed. */
  ghost predicate Accepted(s: seq<nat>) {
    && (forall i :: 0 <= i < |s| ==> s[i] <= MAX_CODE_BITS)
    && (forall b :: 1 <= b <= MAX_CODE_BITS ==> Left(s, b) >= 0)
  }

  /** The bits of symbol `i`, in stream order. */
  function SymbolBits(s: seq<nat>, i: nat): Bits
    requires i < |s|
  {
    Msb(Code(s, i), s[i])
  }

  // ---------------------------------------------------------------- counting

  lemma {:induction false} CountPrefix(s: seq<nat>, i: nat, j: nat, b: nat)
    requires i <= j <= |s|
    ensures Count(s[..i], b) <= Count(s[..j], b)
    ensures i < j && s[i] == b ==> Count(s[..i], b) < Count(s[..j], b)
  {
    if i < j {
      assert s[..j][..j - 1] == s[..j - 1];
      CountPrefix(s, i, j - 1, b);
    }
  }

  lemma RankBelowCount(s: seq<nat>, i: nat)
    requires i < |s|
    ensures Rank(s, i) < Count(s, s[i])
  {
    CountPrefix(s, i, |s|, s[i]);
    assert s[..|s|] == s;
  }

  /** The symbol of length `b` whose rank is `r`. */
  function Nth(s: seq<nat>, b: nat, r: nat): (i: nat)
    requires r < Count(s, b)
    ensures i < |s| && s[i] == b && Rank(s, i) == r
  {
    var n := |s| - 1;
    if s[n] == b && Count(s[..n], b) == r then n
    else
      var i := Nth(s[..n], b, r);
      assert s[..n][..i] == s[..i];
      i
  }

  lemma NthOfRank(s: seq<nat>, i: nat)
    requires i < |s|
    ensures Rank(s, i) < Count(s, s[i]) && Nth(s, s[i], Rank(s, i)) == i
  {
    RankBelowCount(s, i);
    var j := Nth(s, s[i], Rank(s, i));
    if i < j { CountPrefix(s, i, j, s[i]); } else if j < i { CountPrefix(s, j, i, s[i]); }
  }

  // ---------------------------------------------------------------- codes fit their lengths

  lemma {:induction false} Subscription(s: seq<nat>, b: nat)
    requires b >= 1
    ensures First(s, b) + Count(s, b) + Left(s, b) == Pow2(b)
  {
    if b > 1 {
      Subscription(s, b - 1);
    } else {
      assert Left(s, 0) == 1 && Pow2(0) == 1;
    }
  }

  lemma CodeFits(s: seq<nat>, i: nat)
    requires i < |s| && s[i] > 0 && Left(s, s[i]) >= 0
    ensures Code(s, i) < Pow2(s[i])
  {
    Subscription(s, s[i]);
    RankBelowCount(s, i);
  }

  // ---------------------------------------------------------------- decoding

  /** Reading one symbol, bit by bit; `d` is how far the code so far lies past the first code of
      the current length. */
  function Walk(s: seq<nat>, bits: Bits, len: nat, d: nat): (r: Option<(nat, Bits)>)
    requires len >= 1
    ensures r.Some? ==> r.value.0 < |s| && s[r.value.0] >= len
    ensures r.Some? ==> |r.value.1| < |bits|
    decreases |bits|
  {
    if len > MAX_CODE_BITS || bits == [] then None
    else
      var d' := d + (if bits[0] then 1 else 0);
      if d' < Count(s, len) then Some((Nth(s, len, d'), bits[1..]))
      else Walk(s, bits[1..], len + 1, 2 * (d' - Count(s, len)))
  }

  /** The symbol at the head of the stream and the rest of it; `None` when there is none. */
  function DecodeSymbol(s: seq<nat>, bits: Bits): (r: Option<(nat, Bits)>)
    ensures r.Some? ==> r.value.0 < |s| && s[r.value.0] > 0
    ensures r.Some? ==> |r.value.1| < |bits|
  {
    Walk(s, bits, 1, 0)
  }

  /** A code of length `len + k` starts beyond all codes of length `len`. */
  lemma {:induction false} PrefixBeyond(s: seq<nat>, c: nat, len: nat, k: nat)
    requires len >= 1 && k >= 1 && c >= First(s, len + k)
    ensures Shr(c, k) >= First(s, len) + Count(s, len)
  {
    if k > 1 {
      PrefixBeyond(s, c / 2, len, k - 1);
    } else {
      assert Shr(c, 1) == Shr(c / 2, 0) == c / 2;
    }
  }

  lemma {:induction false} ShrStep(c: nat, m: nat)
    requires m >= 1
    ensures Shr(c, m - 1) == 2 * Shr(c, m) + Shr(c, m - 1) % 2
  {
    if m > 1 { ShrStep(c / 2, m - 1); }
  }

  lemma {:induction false} WalkFinds(s: seq<nat>, i: nat, rest: Bits, len: nat, m: nat, d: nat)
    requires i < |s| && len >= 1 && m >= 1 && s[i] == len + m - 1 <= MAX_CODE_BITS
    requires d + First(s, len) == 2 * Shr(Code(s, i), m)
    ensures Walk(s, Msb(Code(s, i), m) + rest, len, d) == Some((i, rest))
    decreases m
  {
    hide Walk, Count, Msb;
    var c := Code(s, i);
    var bits := Msb(c, m) + rest;
    NextBit(c, m, rest);
    var d' := d + (if bits[0] then 1 else 0);
    if m == 1 {
      WalkStops(s, bits, len, d, i);
    } else {
      PrefixBeyond(s, c, len, m - 1);
      WalkFinds(s, i, rest, len + 1, m - 1, 2 * (d' - Count(s, len)));
      WalkGoesOn(s, bits, len, d);
    }
  }

  lemma WalkStops(s: seq<nat>, bits: Bits, len: nat, d: nat, i: nat)
    requires 1 <= len <= MAX_CODE_BITS && bits != [] && i < |s| && s[i] == len
    requires d + (if bits[0] then 1 else 0) == Rank(s, i)
    ensures Walk(s, bits, len, d) == Some((i, bits[1..]))
  {
    NthOfRank(s, i);
  }

  lemma WalkGoesOn(s: seq<nat>, bits: Bits, len: nat, d: nat)
    requires 1 <= len <= MAX_CODE_BITS && bits != []
    requires d + (if bits[0] then 1 else 0) >= Count(s, len)
    ensures Walk(s, bits, len, d) ==
      Walk(s, bits[1..], len + 1, 2 * (d + (if bits[0] then 1 else 0) - Count(s, len)))
  {}

  lemma NextBit(c: nat, m: nat, rest: Bits)
    requires m >= 1
    ensures var bits := Msb(c, m) + rest;
      bits[1..] == Msb(c, m - 1) + rest && (m == 1 ==> bits[1..] == rest) &&
      Shr(c, m - 1) == 2 * Shr(c, m) + (if bits[0] then 1 else 0)
  {
    MsbTop(c, m - 1);
    ShrStep(c, m);
  }

  lemma {:induction false} ShrOfSmall(c: nat, n: nat)
    requires c < Pow2(n)
    ensures Shr(c, n) == 0
  {
    if n > 0 { ShrOfSmall(c / 2, n - 1); }
  }

  /** Decoding reads back exactly the symbol whose code was written, whatever follows it. */
  lemma DecodeReadsBack(s: seq<nat>, i: nat, rest: Bits)
    requires i < |s| && 0 < s[i] <= MAX_CODE_BITS && Left(s, s[i]) >= 0
    ensures DecodeSymbol(s, SymbolBits(s, i) + rest) == Some((i, rest))
  {
    CodeFits(s, i);
    ShrOfSmall(Code(s, i), s[i]);
    WalkFinds(s, i, rest, 1, s[i], 0);
  }

  /** No code is a prefix of another. */
  lemma PrefixFree(s: seq<nat>, i: nat, j: nat)
    requires Accepted(s) && i < |s| && j < |s| && s[i] > 0 && s[j] > 0
    requires SymbolBits(s, i) <= SymbolBits(s, j)
    ensures i == j
  {
    var tail := SymbolBits(s, j)[|SymbolBits(s, i)|..];
    DecodeReadsBack(s, i, tail);
    DecodeReadsBack(s, j, []);
    assert SymbolBits(s, j) + [] == SymbolBits(s, i) + tail;
  }

  // ---------------------------------------------------------------- assigning codes

  lemma CountAppend(s: seq<nat>, i: nat, b: nat)
    requires i < |s|
    ensures Count(s[..i + 1], b) == Count(s[..i], b) + (if s[i] == b then 1 else 0)
  {
    assert s[..i + 1][..i] == s[..i];
  }

  method CountLengths(s: seq<nat>, counts: array<nat>)
    requires counts.Length > MAX_CODE_BITS && forall i :: 0 <= i < |s| ==> s[i] <= MAX_CODE_BITS
    modifies counts
    ensures forall b :: 1 <= b <= MAX_CODE_BITS ==> counts[b] == Count(s, b)
    ensures counts[0] == 0
  {
    for b := 0 to counts.Length
      invariant forall k :: 0 <= k < b ==> counts[k] == 0
    {
      counts[b] := 0;
    }
    for i := 0 to |s|
      invariant forall b :: 1 <= b <= MAX_CODE_BITS ==> counts[b] == Count(s[..i], b)
      invariant counts[0] == 0
    {
      forall b ensures Count(s[..i + 1], b) == Count(s[..i], b) + (if s[i] == b then 1 else 0) {
        CountAppend(s, i, b);
      }
      if s[i] != 0 { counts[s[i]] := counts[s[i]] + 1; }
    }
    assert s[..|s|] == s;
  }

  method FirstCodes(s: seq<nat>, counts: array<nat>, next: array<nat>)
    requires counts.Length > MAX_CODE_BITS && next.Length > MAX_CODE_BITS && counts != next
    requires counts[0] == 0 && forall b :: 1 <= b <= MAX_CODE_BITS ==> counts[b] == Count(s, b)
    modifies next
    ensures forall b :: 1 <= b <= MAX_CODE_BITS ==> next[b] == First(s, b) % 65536
  {
    var code := 0;
    for bits := 1 to MAX_CODE_BITS + 1
      invariant bits > 1 ==> code == First(s, bits - 1)
      invariant bits == 1 ==> code == 0
      invariant forall b :: 1 <= b < bits ==> next[b] == First(s, b) % 65536
    {
      code := 2 * (code + counts[bits - 1]);
      next[bits] := code % 65536;
    }
  }

  /** `huff_assign_codes`: the codes are 16 bits wide, so they wrap where a length is far
      over-subscribed. */
  method AssignCodes(s: seq<nat>) returns (codes: seq<nat>)
    requires forall i :: 0 <= i < |s| ==> s[i] <= MAX_CODE_BITS
    ensures |codes| == |s|
    ensures forall i :: 0 <= i < |s| ==> codes[i] == if s[i] == 0 then 0 else Code(s, i) % 65536
  {
    hide Code, NextCodes;
    var next := StartCodes(s);
    var out := new nat[|s|];
    for i := 0 to |s|
      invariant NextCodes(s, i, next)
      invariant forall k :: 0 <= k < i ==> out[k] == if s[k] == 0 then 0 else Code(s, k) % 65536
    {
      out[i] := AssignCode(s, i, next);
    }
    codes := out[..];
  }

  /** The first code of each length. */
  method StartCodes(s: seq<nat>) returns (next: array<nat>)
    requires forall i :: 0 <= i < |s| ==> s[i] <= MAX_CODE_BITS
    ensures fresh(next) && NextCodes(s, 0, next)
  {
    var counts := new nat[MAX_CODE_BITS + 1];
    next := new nat[MAX_CODE_BITS + 2];
    CountLengths(s, counts);
    FirstCodes(s, counts, next);
    forall b: nat ensures NextCode(s, 0, b) == First(s, b) % 65536 { NoneCounted(s, b); }
  }

  method AssignCode(s: seq<nat>, i: nat, next: array<nat>) returns (code: nat)
    requires i < |s| && s[i] <= MAX_CODE_BITS && NextCodes(s, i, next)
    modifies next
    ensures NextCodes(s, i + 1, next)
    ensures code == if s[i] == 0 then 0 else Code(s, i) % 65536
  {
    forall b | 1 <= b <= MAX_CODE_BITS
      ensures NextCode(s, i + 1, b) == if s[i] == b then (NextCode(s, i, b) + 1) % 65536 else NextCode(s, i, b)
      ensures s[i] == b ==> NextCode(s, i, b) == Code(s, i) % 65536
    {
      NextCodeStep(s, i, b);
    }
    hide NextCode, Code;
    code := 0;
    if s[i] != 0 {
      code := next[s[i]];
      next[s[i]] := (next[s[i]] + 1) % 65536;
    }
  }

  ghost predicate NextCodes(s: seq<nat>, i: nat, next: array<nat>)
    requires i <= |s|
    reads next
  {
    next.Length > MAX_CODE_BITS && forall b :: 1 <= b <= MAX_CODE_BITS ==> next[b] == NextCode(s, i, b)
  }

  /** The next code to hand out at length `b` once the first `i` symbols have theirs. */
  function NextCode(s: seq<nat>, i: nat, b: nat): nat
    requires i <= |s|
  {
    (First(s, b) + Count(s[..i], b)) % 65536
  }

  lemma NextCodeStep(s: seq<nat>, i: nat, b: nat)
    requires i < |s|
    ensures NextCode(s, i + 1, b) == if s[i] == b then (NextCode(s, i, b) + 1) % 65536 else NextCode(s, i, b)
    ensures s[i] == b ==> NextCode(s, i, b) == Code(s, i) % 65536
  {
    CountAppend(s, i, b);
  }

  // ---------------------------------------------------------------- the decoder's tables

  /** Where the symbols of length `b` start in canonical order. */
  function Offset(s: seq<nat>, b: nat): nat {
    if b <= 1 then 0 else Offset(s, b - 1) + Count(s, b - 1)
  }

  /** A symbol's place in canonical order: by length, then by symbol. */
  function Place(s: seq<nat>, i: nat): nat
    requires i < |s|
  {
    Offset(s, s[i]) + Rank(s, i)
  }

  lemma {:induction false} OffsetGrows(s: seq<nat>, b: nat, c: nat)
    requires 1 <= b < c
    ensures Offset(s, b) + Count(s, b) <= Offset(s, c)
  {
    if b + 1 < c { OffsetGrows(s, b, c - 1); }
  }

  lemma {:induction false} OffsetOfPrefix(s: seq<nat>, b: nat)
    requires s != []
    ensures var n := |s| - 1;
      Offset(s, b) == Offset(s[..n], b) + (if 1 <= s[n] < b then 1 else 0)
  {
    if b > 1 { OffsetOfPrefix(s, b - 1); }
  }

  lemma {:induction false} OffsetBound(s: seq<nat>, b: nat)
    ensures Offset(s, b) <= |s|
    decreases |s|
  {
    if s != [] {
      OffsetOfPrefix(s, b);
      OffsetBound(s[..|s| - 1], b);
    } else {
      NoOffset(b);
    }
  }

  lemma {:induction false} NoOffset(b: nat)
    ensures Offset([], b) == 0
  {
    if b > 1 { NoOffset(b - 1); }
  }

  lemma PlaceInRange(s: seq<nat>, i: nat)
    requires i < |s| && s[i] >= 1
    ensures Place(s, i) < |s|
  {
    RankBelowCount(s, i);
    OffsetGrows(s, s[i], s[i] + 1);
    OffsetBound(s, s[i] + 1);
  }

  lemma PlacesDistinct(s: seq<nat>, i: nat, j: nat)
    requires i < j < |s| && s[i] >= 1 && s[j] >= 1
    ensures Place(s, i) != Place(s, j)
  {
    RankBelowCount(s, i);
    RankBelowCount(s, j);
    if s[i] == s[j] {
      CountPrefix(s, i, j, s[i]);
    } else if s[i] < s[j] {
      OffsetGrows(s, s[i], s[j]);
    } else {
      OffsetGrows(s, s[j], s[i]);
    }
  }

  /** What a caller of the decoder sees when the stream was long enough. */
  predicate Yields(target: Option<(nat, Bits)>, sym: int, rest: Bits) {
    match target
    case None => sym < 0
    case Some((x, tail)) => sym == x && rest == tail
  }

  lemma OffsetStep(s: seq<nat>, b: nat)
    ensures Offset(s, b + 1) == if b == 0 then 0 else Offset(s, b) + Count(s, b)
  {}

  lemma NoneCounted(s: seq<nat>, b: nat)
    ensures Count(s[..0], b) == 0
  {}

  class HuffDecoder {
    const counts: array<nat>       // symbols of each length
    const symbols: array<nat>      // symbols in canonical order
    ghost var lengths: seq<nat>

    ghost predicate Allocated()
      reads this
    {
      counts.Length == MAX_CODE_BITS + 1 && symbols.Length == NUM_LITERALS && counts != symbols
    }

    /** The tables describe exactly the code with these lengths. */
    ghost predicate Ready()
      reads this, counts, symbols
    {
      && Allocated()
      && |lengths| <= NUM_LITERALS
      && (forall b :: 1 <= b <= MAX_CODE_BITS ==> counts[b] == Count(lengths, b))
      && (forall i :: 0 <= i < |lengths| && lengths[i] >= 1 ==> Listed(i))
    }

    ghost predicate Listed(i: nat)
      requires i < |lengths|
      reads this, symbols
    {
      Place(lengths, i) < symbols.Length && symbols[Place(lengths, i)] == i
    }

    constructor ()
      ensures Allocated() && fresh(counts) && fresh(symbols)
    {
      counts := new nat[MAX_CODE_BITS + 1];
      symbols := new nat[NUM_LITERALS];
      lengths := [];
    }

    /** `huff_build_decoder`: refuses a length over 15 and an over-subscribed code, nothing else. */
    method Build(s: seq<nat>) returns (ok: bool)
      requires Allocated() && |s| <= NUM_LITERALS
      modifies this, counts, symbols
      ensures Allocated()
      ensures ok <==> Accepted(s)
      ensures ok ==> Ready() && lengths == s
    {
      for i := 0 to |s|
        invariant forall k :: 0 <= k < i ==> s[k] <= MAX_CODE_BITS
      {
        if s[i] > MAX_CODE_BITS { return false; }
      }
      CountLengths(s, counts);
      var left: int := 1;
      for bits := 1 to MAX_CODE_BITS + 1
        invariant left == Left(s, bits - 1)
        invariant forall b :: 1 <= b < bits ==> Left(s, b) >= 0
      {
        left := 2 * left - counts[bits];
        if left < 0 {
          assert Left(s, bits) < 0;
          return false;
        }
      }
      ok := true;
      lengths := s;
      FillSymbols(s);
    }

    method FillSymbols(s: seq<nat>)
      requires Allocated() && s == lengths && |s| <= NUM_LITERALS
      requires forall i :: 0 <= i < |s| ==> s[i] <= MAX_CODE_BITS
      requires forall b :: 1 <= b <= MAX_CODE_BITS ==> counts[b] == Count(s, b)
      modifies symbols
      ensures Ready()
    {
      var offsets := Offsets(s);
      for i := 0 to |s|
        invariant AtSymbol(s, i, offsets)
        invariant forall k :: 0 <= k < i && s[k] >= 1 ==> Listed(k)
      {
        PlaceSymbol(s, i, offsets);
      }
      assert s[..|s|] == s;
    }

    method Offsets(s: seq<nat>) returns (offsets: array<nat>)
      requires Allocated() && forall b :: 1 <= b <= MAX_CODE_BITS ==> counts[b] == Count(s, b)
      ensures fresh(offsets) && AtSymbol(s, 0, offsets)
    {
      hide Count, Offset;
      offsets := new nat[MAX_CODE_BITS + 2];
      OffsetStep(s, 0);
      offsets[1] := 0;
      for bits := 1 to MAX_CODE_BITS + 1
        invariant forall b :: 1 <= b <= bits ==> offsets[b] == Offset(s, b)
      {
        OffsetStep(s, bits);
        offsets[bits + 1] := offsets[bits] + counts[bits];
      }
      forall b | 1 <= b <= MAX_CODE_BITS ensures Count(s[..0], b) == 0 { NoneCounted(s, b); }
    }

    /** The next free place of every length, once the first `i` symbols are placed. */
    ghost predicate AtSymbol(s: seq<nat>, i: nat, offsets: array<nat>)
      requires i <= |s|
      reads offsets
    {
      && offsets.Length == MAX_CODE_BITS + 2
      && forall b :: 1 <= b <= MAX_CODE_BITS ==> offsets[b] == Offset(s, b) + Count(s[..i], b)
    }

    method PlaceSymbol(s: seq<nat>, i: nat, offsets: array<nat>)
      requires Allocated() && s == lengths && i < |s| <= NUM_LITERALS && s[i] <= MAX_CODE_BITS
      requires offsets != symbols && offsets != counts && AtSymbol(s, i, offsets)
      requires forall k :: 0 <= k < i && s[k] >= 1 ==> Listed(k)
      modifies symbols, offsets
      ensures AtSymbol(s, i + 1, offsets)
      ensures forall k :: 0 <= k <= i && s[k] >= 1 ==> Listed(k)
    {
      forall b ensures Count(s[..i + 1], b) == Count(s[..i], b) + (if s[i] == b then 1 else 0) {
        CountAppend(s, i, b);
      }
      if s[i] != 0 {
        PlaceInRange(s, i);
        forall k | 0 <= k < i && s[k] >= 1 ensures Place(s, k) != Place(s, i) {
          PlacesDistinct(s, k, i);
        }
        assert offsets[s[i]] == Place(s, i);
        symbols[offsets[s[i]]] := i;
        offsets[s[i]] := offsets[s[i]] + 1;
      }
    }

    /** `huff_decode`: one symbol, or a negative number for a bad code. */
    method Decode(r: BitReader) returns (sym: int)
      requires Ready() && r.Valid()
      modifies r
      ensures r.Valid() && (old(r.underflow) ==> r.underflow)
      ensures sym >= 0 ==> sym < |lengths| && lengths[sym] >= 1
      ensures !r.underflow ==> Yields(DecodeSymbol(lengths, old(r.rest)), sym, r.rest)
      ensures r.underflow && !old(r.underflow) ==> DecodeSymbol(lengths, old(r.rest)).None?
    {
      hide Count, Nth, Rank, Walk, BitReader.Valid;
      ghost var target := DecodeSymbol(lengths, r.rest);
      var code: int, first: int, index: int := 0, 0, 0;
      sym := -1;
      for len := 1 to MAX_CODE_BITS + 1
        invariant first == First(lengths, len) && index == Offset(lengths, len) && code >= first
        invariant r.Valid() && (old(r.underflow) ==> r.underflow) && sym == -1
        invariant !r.underflow ==> Walk(lengths, r.rest, len, code - first) == target
        invariant r.underflow && !old(r.underflow) ==> target.None?
      {
        code := CodeBit(r, code, len, code - first, target);
        var count := counts[len];
        if code - first < count {
          sym := SymbolAt(len, index, code - first);
          break;
        }
        index := index + count;
        first := 2 * (first + count);
        code := 2 * code;
      }
      if !r.underflow && sym < 0 { WalkGivesUp(lengths, r.rest, code - first); }
    }

    method SymbolAt(len: nat, index: nat, d: nat) returns (sym: nat)
      requires Ready() && 1 <= len <= MAX_CODE_BITS && d < Count(lengths, len) && index == Offset(lengths, len)
      ensures sym == Nth(lengths, len, d)
    {
      assert Listed(Nth(lengths, len, d));
      sym := symbols[index + d];
    }

    /** Takes the next bit of the code read so far. */
    method CodeBit(r: BitReader, code: nat, ghost len: nat, ghost d: nat, ghost target: Option<(nat, Bits)>)
      returns (code': nat)
      requires r.Valid() && 1 <= len <= MAX_CODE_BITS
      requires !r.underflow ==> Walk(lengths, r.rest, len, d) == target
      modifies r
      ensures r.Valid() && (old(r.underflow) ==> r.underflow)
      ensures code <= code' <= code + 1
      ensures !r.underflow ==> (
        var d' := d + (code' - code);
        target ==
          if d' < Count(lengths, len) then Some((Nth(lengths, len, d'), r.rest))
          else Walk(lengths, r.rest, len + 1, 2 * (d' - Count(lengths, len))))
      ensures r.underflow && !old(r.underflow) ==> target.None?
    {
      ghost var before := r.rest;
      var bit := r.TakeBits(1);
      if !r.underflow { WalkTakesBit(lengths, before, len, d, bit); }
      code' := code + bit;
    }
  }

  lemma WalkGivesUp(s: seq<nat>, bits: Bits, d: nat)
    ensures Walk(s, bits, MAX_CODE_BITS + 1, d).None?
  {}

  lemma WalkTakesBit(s: seq<nat>, bits: Bits, len: nat, d: nat, bit: nat)
    requires 1 <= len <= MAX_CODE_BITS && bits != [] && bit == Value(bits[..1])
    ensures Walk(s, bits, len, d) ==
      if d + bit < Count(s, len) then Some((Nth(s, len, d + bit), bits[1..]))
      else Walk(s, bits[1..], len + 1, 2 * (d + bit - Count(s, len)))
  {
    assert Value(bits[..1][1..]) == 0;
  }
}
