/** Symbol frequencies of a token stream: `count_symbols` of `C-Deflate/src/deflate.c`. */
module SymbolCounts {
  import opened DeflateTables
  import opened CodeLengths
  import opened Lz77
  import opened HuffmanLengths

  function Bump(s: seq<nat>, i: nat): (r: seq<nat>)
    requires i < |s|
    ensures |r| == |s|
  {
    s[i := s[i] + 1]
  }

  /** The literal/length symbol of a token. */
  function LitSymbol(t: Token): (s: nat)
    ensures s < NUM_LITERALS && s != END_OF_BLOCK
  {
    match t
    case Literal(b) => b
    case Match(length, _) => 257 + LengthCode(length)
  }

  function LitCounts(ts: seq<Token>): (s: seq<nat>)
    ensures |s| == NUM_LITERALS
  {
    if ts == [] then Copies(0, NUM_LITERALS)
    else Bump(LitCounts(ts[..|ts| - 1]), LitSymbol(ts[|ts| - 1]))
  }

  /** Every token's symbol, and one end of block. */
  function LitFreq(ts: seq<Token>): (s: seq<nat>)
    ensures |s| == NUM_LITERALS
  {
    Bump(LitCounts(ts), END_OF_BLOCK)
  }

  function DistFreq(ts: seq<Token>): (s: seq<nat>)
    ensures |s| == NUM_DISTANCES
  {
    if ts == [] then Copies(0, NUM_DISTANCES)
    else
      var s := DistFreq(ts[..|ts| - 1]);
      match ts[|ts| - 1]
      case Literal(_) => s
      case Match(_, distance) => Bump(s, DistanceCode(distance))
  }

  method CountSymbols(ts: seq<Token>) returns (lit: seq<nat>, dist: seq<nat>)
    ensures lit == LitFreq(ts) && dist == DistFreq(ts)
  {
    hide LitCounts, DistFreq, LengthCode, DistanceCode;
    lit, dist := Copies(0, NUM_LITERALS), Copies(0, NUM_DISTANCES);
    NothingCounted(ts);
    for i := 0 to |ts|
      invariant lit == LitCounts(ts[..i]) && dist == DistFreq(ts[..i])
    {
      CountStep(ts, i);
      match ts[i] {
        case Literal(b) =>
          lit := Bump(lit, b);
        case Match(length, distance) =>
          var lc := LengthToCode(length);
          lit := Bump(lit, 257 + lc);
          var dc := DistanceToCode(distance);
          dist := Bump(dist, dc);
      }
    }
    assert ts[..|ts|] == ts;
    lit := Bump(lit, END_OF_BLOCK);
  }

  lemma NothingCounted(ts: seq<Token>)
    ensures LitCounts(ts[..0]) == Copies(0, NUM_LITERALS) && DistFreq(ts[..0]) == Copies(0, NUM_DISTANCES)
  {}

  lemma CountStep(ts: seq<Token>, i: nat)
    requires i < |ts|
    ensures LitCounts(ts[..i + 1]) == Bump(LitCounts(ts[..i]), LitSymbol(ts[i]))
    ensures DistFreq(ts[..i + 1]) ==
      if ts[i].Literal? then DistFreq(ts[..i]) else Bump(DistFreq(ts[..i]), DistanceCode(ts[i].distance))
  {
    assert ts[..i + 1][..i] == ts[..i];
  }

  lemma {:induction false} LitCountsUsed(ts: seq<Token>, i: nat)
    requires i < |ts|
    ensures LitCounts(ts)[LitSymbol(ts[i])] > 0
  {
    var n := |ts| - 1;
    if i < n { LitCountsUsed(ts[..n], i); }
  }

  /** Every symbol a token needs is counted, and so is the end of block. */
  lemma LitFreqUsed(ts: seq<Token>, i: nat)
    ensures LitFreq(ts)[END_OF_BLOCK] > 0
    ensures i < |ts| ==> LitFreq(ts)[LitSymbol(ts[i])] > 0
  {
    if i < |ts| { LitCountsUsed(ts, i); }
  }

  lemma {:induction false} DistFreqUsed(ts: seq<Token>, i: nat)
    requires i < |ts| && ts[i].Match?
    ensures DistFreq(ts)[DistanceCode(ts[i].distance)] > 0
  {
    hide DistanceCode;
    var n := |ts| - 1;
    if i < n { DistFreqUsed(ts[..n], i); }
  }

  /** A counted distance symbol comes from some match. */
  lemma {:induction false} DistFreqComes(ts: seq<Token>, k: nat) returns (i: nat)
    requires k < NUM_DISTANCES && DistFreq(ts)[k] > 0
    ensures i < |ts| && ts[i].Match? && DistanceCode(ts[i].distance) == k
  {
    var n := |ts| - 1;
    if ts[n].Match? && DistanceCode(ts[n].distance) == k {
      i := n;
    } else {
      i := DistFreqComes(ts[..n], k);
    }
  }

  lemma TwoUsed(freqs: seq<nat>, x: nat, y: nat)
    requires x < |freqs| && y < |freqs| && x != y && freqs[x] > 0 && freqs[y] > 0
    ensures |Used(freqs)| >= 2
  {
    UsedIsUsed(freqs, x);
    UsedIsUsed(freqs, y);
  }
}
