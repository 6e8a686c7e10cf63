/** Choosing the codes of a dynamic block: the second candidate of `deflate_compress` in
    `C-Deflate/src/deflate.c`, found by its loops. */
module DeflatePrepare {
  import opened DeflateBits
  import opened DeflateTables
  import opened HuffmanCodes
  import opened HuffmanDepth
  import opened HuffmanLengths
  import opened HuffmanBuild
  import opened CodeLengths
  import opened Lz77
  import opened SymbolCounts
  import opened DeflateHeader
  import opened DeflatePlan
  import opened DeflateDynamic
  import opened HeaderEmit

  method DistLengths(freq: seq<nat>) returns (dist: seq<nat>)
    requires |freq| == NUM_DISTANCES
    ensures dist == DistLengthsOf(freq)
  {
    hide Limited, TreeDepth, Optimal, CodeFor, Used;
    AlphabetsFit(|freq|);
    dist := BuildLengths(freq, MAX_CODE_BITS);
    var any := AnyLength(dist);
    if !any {
      dist := dist[0 := 1];
    }
  }

  method AnyLength(s: seq<nat>) returns (any: bool)
    ensures any <==> exists i :: 0 <= i < |s| && s[i] > 0
  {
    any := false;
    for i := 0 to |s|
      invariant any <==> exists k :: 0 <= k < i && s[k] > 0
    {
      if s[i] > 0 { any := true; }
    }
  }

  method Trim(s: seq<nat>, least: nat) returns (n: nat)
    requires least <= |s|
    ensures n == Trimmed(s, least, |s|)
  {
    n := |s|;
    while n > least && s[n - 1] == 0
      invariant least <= n <= |s| && Trimmed(s, least, n) == Trimmed(s, least, |s|)
    {
      n := n - 1;
    }
  }

  method CountItems(items: seq<Item>) returns (freq: seq<nat>)
    requires forall i :: 0 <= i < |items| ==> items[i].sym < NUM_CODELEN
    ensures freq == ItemFreq(items)
  {
    freq := Copies(0, NUM_CODELEN);
    assert items[..0] == [];
    for i := 0 to |items|
      invariant freq == ItemFreq(items[..i])
    {
      assert items[..i + 1][..i] == items[..i];
      freq := Bump(freq, items[i].sym);
    }
    assert items[..|items|] == items;
  }

  method ClCode(items: seq<Item>) returns (cl: seq<nat>, hclen: nat)
    requires forall i :: 0 <= i < |items| ==> items[i].sym < NUM_CODELEN
    ensures cl == ClLengthsOf(items) && hclen == ClTrimmed(cl, NUM_CODELEN)
  {
    hide Limited, TreeDepth, Optimal, CodeFor, Used, ItemFreq, Order;
    AlphabetsFit(NUM_CODELEN);
    var freq := CountItems(items);
    cl := BuildLengths(freq, MAX_CL_BITS);
    hclen := NUM_CODELEN;
    while hclen > 4 && cl[Order(hclen - 1)] == 0
      invariant 4 <= hclen <= NUM_CODELEN && ClTrimmed(cl, hclen) == ClTrimmed(cl, NUM_CODELEN)
    {
      hclen := hclen - 1;
    }
  }

  /** The header for two accepted codes. */
  method HeaderFor(lit: seq<nat>, dist: seq<nat>) returns (h: Header)
    requires |lit| == NUM_LITERALS && |dist| == NUM_DISTANCES && Accepted(lit) && Accepted(dist)
    ensures h == HeaderOf(lit, dist)
  {
    hide Left, ItemsOf, Unpack, ClLengthsOf, ClTrimmed, Trimmed;
    var hlit := Trim(lit, 257);
    var hdist := Trim(dist, 1);
    var items := Pack(lit[..hlit] + dist[..hdist]);
    var cl, hclen := ClCode(items);
    h := Header(hlit, hdist, hclen, cl, items);
  }

  /** The second candidate, and what makes it worth having. */
  method PrepareDynamic(inp: seq<byte>, ts: seq<Token>) returns (lit: seq<nat>, dist: seq<nat>, h: Header)
    requires inp != [] && Spells(inp, ts, |inp|)
    ensures DynamicPlan(ts, lit, dist, h) == DynamicOf(ts) && ValidPlan(DynamicOf(ts), inp)
    ensures TreeDepth(LitFreq(ts)) <= MAX_CODE_BITS ==> Optimal(LitFreq(ts), lit)
    ensures |Used(DistFreq(ts))| >= 2 && TreeDepth(DistFreq(ts)) <= MAX_CODE_BITS ==> Optimal(DistFreq(ts), dist)
    ensures Writable(h) && Accepted(lit) && Accepted(dist) && Accepted(h.cl)
  {
    hide Spells, Accepted, Writable, LitFreq, DistFreq, DistLengthsOf, HeaderOf, CodeFor, Optimal, Used, TreeDepth,
         ValidPlan, Limited, FitsLimit;
    SomeTokens(inp, ts);
    DynamicIsValid(inp, ts);
    DynamicIsOptimal(ts);
    var litFreq, distFreq := CountSymbols(ts);
    AlphabetsFit(|litFreq|);
    lit := BuildLengths(litFreq, MAX_CODE_BITS);
    dist := DistLengths(distFreq);
    h := HeaderFor(lit, dist);
  }
}
