/** The lengths `huff_build_lengths` makes are lengths `huff_build_decoder` accepts. */
module HuffmanKraft {
  import opened Arithmetic
  import opened HuffmanOptimality
  import opened HuffmanCodes
  import opened HuffmanLengths
  import opened DeflateTables

  /** The share of all `b`-bit codes taken by codes of at most `b` bits. */
  function Mass(s: seq<nat>, b: nat): nat {
    if s == [] then 0
    else Mass(s[..|s| - 1], b) + Share(s[|s| - 1], b)
  }

  function Share(l: nat, b: nat): nat {
    if 1 <= l <= b then Pow2(b - l) else 0
  }

  lemma {:induction false} MassStep(s: seq<nat>, b: nat)
    ensures Mass(s, b + 1) == 2 * Mass(s, b) + Count(s, b + 1)
  {
    if s != [] { MassStep(s[..|s| - 1], b); }
  }

  lemma {:induction false} MassOfNothing(s: seq<nat>)
    ensures Mass(s, 0) == 0
  {
    if s != [] { MassOfNothing(s[..|s| - 1]); }
  }

  /** What is assigned and what is left add up to the whole code space. */
  lemma {:induction false} MassAndLeft(s: seq<nat>, b: nat)
    ensures Mass(s, b) + Left(s, b) == Pow2(b)
  {
    if b == 0 {
      MassOfNothing(s);
    } else {
      MassAndLeft(s, b - 1);
      MassStep(s, b - 1);
    }
  }

  lemma {:induction false} LeftShrinks(s: seq<nat>, b: nat, top: nat)
    requires b <= top && Left(s, top) >= 0
    ensures Left(s, b) >= 0
    decreases top
  {
    if b < top { LeftShrinks(s, b, top - 1); }
  }

  lemma {:induction false} NoneLonger(s: seq<nat>, b: nat)
    requires forall i :: 0 <= i < |s| ==> s[i] < b
    ensures Count(s, b) == 0
  {
    if s != [] { NoneLonger(s[..|s| - 1], b); }
  }

  /** Past the longest length nothing more is assigned. */
  lemma {:induction false} LeftStays(s: seq<nat>, b: nat, top: nat)
    requires b <= top && Left(s, b) >= 0 && forall i :: 0 <= i < |s| ==> s[i] <= b
    ensures Left(s, top) >= 0 && (Left(s, b) == 0 ==> Left(s, top) == 0)
  {
    if b < top {
      LeftStays(s, b, top - 1);
      NoneLonger(s, top);
    }
  }

  /** Lengths up to `top`, non-zero exactly for the symbols that occur. */
  ghost predicate Covers(freqs: seq<nat>, ls: seq<nat>, top: nat) {
    && |freqs| == |ls|
    && forall x :: 0 <= x < |freqs| ==> if freqs[x] == 0 then ls[x] == 0 else 1 <= ls[x] <= top
  }

  lemma PickedBounded(freqs: seq<nat>, ls: seq<nat>, top: nat)
    requires Covers(freqs, ls, top)
    ensures Bounded(Picked(ls, Used(freqs)), top)
  {}

  lemma {:induction false} MassIsKraft(freqs: seq<nat>, ls: seq<nat>, top: nat)
    requires Covers(freqs, ls, top)
    ensures Bounded(Picked(ls, Used(freqs)), top)
    ensures Kraft(Picked(ls, Used(freqs)), top) == Mass(ls, top)
  {
    hide Kraft, Used, Picked, Bounded;
    PickedBounded(freqs, ls, top);
    if freqs == [] {
      PickedOfNothing(ls);
      KraftOfNone(top);
    } else {
      var n := |freqs| - 1;
      assert freqs[..n] + [freqs[n]] == freqs && ls[..n] + [ls[n]] == ls;
      PickedAppend(freqs[..n], freqs[n], ls[..n], ls[n]);
      MassIsKraft(freqs[..n], ls[..n], top);
      if freqs[n] != 0 { KraftAppend(Picked(ls[..n], Used(freqs[..n])), top, ls[n]); }
    }
  }

  lemma PickedOfNothing(ls: seq<nat>)
    ensures Picked(ls, Used([])) == []
  {}

  /** A complete code of bounded length leaves nothing unassigned and is accepted. */
  lemma CompleteIsAccepted(freqs: seq<nat>, ls: seq<nat>, limit: nat)
    requires CompleteOver(freqs, ls, limit) && limit <= MAX_CODE_BITS
    ensures Accepted(ls) && Left(ls, MAX_CODE_BITS) == 0
  {
    MassIsKraft(freqs, ls, limit);
    MassAndLeft(ls, limit);
    LeftStays(ls, limit, MAX_CODE_BITS);
    forall b | 1 <= b <= MAX_CODE_BITS ensures Left(ls, b) >= 0 {
      LeftShrinks(ls, b, MAX_CODE_BITS);
    }
  }

  /** So is a code whose only length, if any, is one bit for symbol 0. */
  lemma FirstBitIsAccepted(ls: seq<nat>)
    requires forall x :: 0 <= x < |ls| ==> ls[x] == if x == 0 then ls[0] else 0
    requires ls != [] ==> ls[0] <= 1
    ensures Accepted(ls)
  {
    var b := MAX_CODE_BITS;
    MassOfFirst(ls, b);
    MassAndLeft(ls, b);
    assert Pow2(15) >= Pow2(14);
    forall b | 1 <= b <= MAX_CODE_BITS ensures Left(ls, b) >= 0 {
      LeftShrinks(ls, b, MAX_CODE_BITS);
    }
  }

  lemma {:induction false} MassOfFirst(ls: seq<nat>, b: nat)
    requires forall x :: 0 <= x < |ls| ==> ls[x] == if x == 0 then ls[0] else 0
    requires ls != [] ==> ls[0] <= 1
    ensures Mass(ls, b) == if ls == [] then 0 else Share(ls[0], b)
  {
    if ls != [] { MassOfFirst(ls[..|ls| - 1], b); }
  }
}
