/** The length and distance tables of section 3.2.5 of RFC 1951, and the code lookups. */
module DeflateTables {
  import opened Arithmetic

  const LENGTH_BASE: seq<nat> := [
    3, 4, 5, 6, 7, 8, 9, 10, 11, 13, 15, 17, 19, 23, 27, 31,
    35, 43, 51, 59, 67, 83, 99, 115, 131, 163, 195, 227, 258]
  const LENGTH_EXTRA: seq<nat> := [
    0, 0, 0, 0, 0, 0, 0, 0, 1, 1, 1, 1, 2, 2, 2, 2,
    3, 3, 3, 3, 4, 4, 4, 4, 5, 5, 5, 5, 0]
  const DIST_BASE: seq<nat> := [
    1, 2, 3, 4, 5, 7, 9, 13, 17, 25, 33, 49, 65, 97, 129, 193,
    257, 385, 513, 769, 1025, 1537, 2049, 3073, 4097, 6145,
    8193, 12289, 16385, 24577]
  const DIST_EXTRA: seq<nat> := [
    0, 0, 0, 0, 1, 1, 2, 2, 3, 3, 4, 4, 5, 5, 6, 6,
    7, 7, 8, 8, 9, 9, 10, 10, 11, 11, 12, 12, 13, 13]
  const CODELEN_ORDER: seq<nat> := [16, 17, 18, 0, 8, 7, 9, 6, 10, 5, 11, 4, 12, 3, 13, 2, 14, 1, 15]

  const MIN_MATCH: nat := 3
  const MAX_MATCH: nat := 258
  const WINDOW_SIZE: nat := 32768
  const NUM_LITERALS: nat := 286
  const NUM_DISTANCES: nat := 30
  const NUM_CODELEN: nat := 19
  const MAX_CODE_BITS: nat := 15
  const MAX_CL_BITS: nat := 7
  const END_OF_BLOCK: nat := 256

  // Result codes and levels of `C-Deflate/include/deflate.h`.
  const DF_OK := 0
  const DF_ERR_OUTPUT := -1
  const DF_ERR_INPUT := -2
  const DF_ERR_CORRUPT := -3
  const DF_LEVEL_STORE := 0
  const DF_LEVEL_DEFAULT := 6

  /** The last index whose base does not exceed `v`: the scan from the top. */
  function LastNotAbove(base: seq<nat>, v: nat, i: nat): (c: nat)
    requires i < |base|
    ensures c <= i
    ensures base[c] <= v || c == 0
    ensures forall k :: c < k <= i ==> v < base[k]
  {
    if v >= base[i] || i == 0 then i else LastNotAbove(base, v, i - 1)
  }

  function LengthBase(c: nat): nat
    requires c < 29
  {
    LENGTH_BASE[c]
  }

  function LengthExtra(c: nat): nat
    requires c < 29
  {
    LENGTH_EXTRA[c]
  }

  function DistBase(c: nat): nat
    requires c < 30
  {
    DIST_BASE[c]
  }

  function DistExtra(c: nat): nat
    requires c < 30
  {
    DIST_EXTRA[c]
  }

  function LengthCode(length: nat): (c: nat)
    ensures c < 29
  {
    LastNotAbove(LENGTH_BASE, length, 28)
  }

  function DistanceCode(distance: nat): (c: nat)
    ensures c < 30
  {
    LastNotAbove(DIST_BASE, distance, 29)
  }

  /** The tables of section 3.2.5 of RFC 1951 by rule: each row starts where the one before ends, four
      lengths or two distances share a width, and the last length has a row to itself. */
  lemma LengthRule(c: nat)
    requires c < 28
    ensures LengthBase(0) == 3 && LengthBase(28) == 258 && LengthExtra(28) == 0
    ensures LengthExtra(c) == if c < 8 then 0 else c / 4 - 1
    ensures c < 27 ==> LengthBase(c + 1) == LengthBase(c) + Pow2(LengthExtra(c))
  {
    hide Pow2;
    SmallPowers();
  }

  lemma DistanceRule(c: nat)
    requires c < 30
    ensures DistBase(0) == 1 && DistExtra(c) == if c < 4 then 0 else c / 2 - 1
    ensures c < 29 ==> DistBase(c + 1) == DistBase(c) + Pow2(DistExtra(c))
  {
    hide Pow2;
    SmallPowers();
  }

  /** The order of the code-length lengths, as section 3.2.7 has it: the repeat codes, zero, and then
      outwards from eight. */
  lemma OrderRule(i: nat)
    requires i < NUM_CODELEN
    ensures CODELEN_ORDER[i] == if i < 3 then 16 + i else if i == 3 then 0
      else if i % 2 == 0 then 8 + (i - 4) / 2 else 7 - (i - 5) / 2
  {}

  /** One table row reaches no further than the next row starts. */
  ghost predicate Tiles(base: seq<nat>, extra: seq<nat>, c: nat)
    requires |base| == |extra| && c + 1 < |base|
  {
    base[c + 1] <= base[c] + Pow2(extra[c])
  }

  lemma LengthRows(c: nat)
    requires c < 28
    ensures Tiles(LENGTH_BASE, LENGTH_EXTRA, c)
  {
    SmallPowers();
  }

  lemma DistanceRows(c: nat)
    requires c < 29
    ensures Tiles(DIST_BASE, DIST_EXTRA, c)
  {
    SmallPowers();
  }

  lemma SmallPowers()
    ensures Pow2(0) == 1 && Pow2(1) == 2 && Pow2(2) == 4 && Pow2(3) == 8 && Pow2(4) == 16
    ensures Pow2(5) == 32 && Pow2(6) == 64 && Pow2(7) == 128 && Pow2(8) == 256 && Pow2(9) == 512
    ensures Pow2(10) == 1024 && Pow2(11) == 2048 && Pow2(12) == 4096 && Pow2(13) == 8192
  {}

  /** Every match length is a base plus an extra field that fits its width. */
  lemma LengthCovered(length: nat)
    requires MIN_MATCH <= length <= MAX_MATCH
    ensures var c := LengthCode(length);
      c < 29 && LengthBase(c) <= length < LengthBase(c) + Pow2(LengthExtra(c))
  {
    var c := LengthCode(length);
    if c < 28 { LengthRows(c); }
  }

  lemma DistanceCovered(distance: nat)
    requires 1 <= distance <= WINDOW_SIZE
    ensures var c := DistanceCode(distance);
      c < 30 && DistBase(c) <= distance < DistBase(c) + Pow2(DistExtra(c))
  {
    var c := DistanceCode(distance);
    SmallPowers();
    if c < 29 { DistanceRows(c); }
  }

  method LengthToCode(length: nat) returns (c: nat)
    ensures c == LengthCode(length)
  {
    var i := 28;
    while i >= 0
      invariant -1 <= i <= 28
      invariant forall k :: i < k <= 28 ==> length < LENGTH_BASE[k]
    {
      if length >= LENGTH_BASE[i] {
        LastIsUnique(LENGTH_BASE, length, 28, i);
        return i;
      }
      i := i - 1;
    }
    LastIsUnique(LENGTH_BASE, length, 28, 0);
    c := 0;
  }

  method DistanceToCode(distance: nat) returns (c: nat)
    ensures c == DistanceCode(distance)
  {
    var i := 29;
    while i >= 0
      invariant -1 <= i <= 29
      invariant forall k :: i < k <= 29 ==> distance < DIST_BASE[k]
    {
      if distance >= DIST_BASE[i] {
        LastIsUnique(DIST_BASE, distance, 29, i);
        return i;
      }
      i := i - 1;
    }
    LastIsUnique(DIST_BASE, distance, 29, 0);
    c := 0;
  }

  lemma LastIsUnique(base: seq<nat>, v: nat, top: nat, c: nat)
    requires c <= top < |base|
    requires base[c] <= v || c == 0
    requires forall k :: c < k <= top ==> v < base[k]
    ensures LastNotAbove(base, v, top) == c
  {}
}
