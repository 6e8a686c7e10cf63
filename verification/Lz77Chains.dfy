/** The hash chains of `find_match` and `lz77_parse` of `C-Deflate/src/deflate.c`: two tables, updated
    in place, that give every position the one before it with the same hash.  An entry that a later
    position has overwritten is never followed, so the tokens depend on the input and the level alone. */
module Lz77Chains {
  import opened Arithmetic
  import opened DeflateBits
  import opened DeflateTables
  import opened Lz77

  ghost predicate Linked(inp: seq<byte>, q: nat, prev: array<int>)
    requires prev.Length == WINDOW_SIZE
    reads prev
  {
    q + 3 <= |inp| && prev[q % WINDOW_SIZE] == Older(inp, q)
  }

  /** Positions `0 .. n` have been inserted in order: `head` has the newest position of every hash, and
      `prev` the one before it for every position still within the window. */
  ghost predicate Chained(inp: seq<byte>, n: nat, head: array<int>, prev: array<int>)
    reads head, prev
  {
    && head.Length == HASH_SIZE && prev.Length == WINDOW_SIZE && head != prev
    && (forall h :: 0 <= h < HASH_SIZE ==> head[h] == Newest(inp, n, h))
    && (forall q: nat :: n - WINDOW_SIZE <= q < n ==> Linked(inp, q, prev))
  }

  method Insert(inp: seq<byte>, k: nat, head: array<int>, prev: array<int>)
    requires k + MIN_MATCH <= |inp| && Chained(inp, k, head, prev)
    modifies head, prev
    ensures Chained(inp, k + 1, head, prev)
  {
    hide Hash3;
    var h := Hash3(inp, k);
    prev[k % WINDOW_SIZE] := head[h];
    head[h] := k;
    forall q: nat | k + 1 - WINDOW_SIZE <= q < k + 1 ensures Linked(inp, q, prev) {
      if q < k {
        assert old(Linked(inp, q, prev));
        RemaindersDiffer(q, k, WINDOW_SIZE);
      }
    }
  }

  method MatchLength(inp: seq<byte>, pos: nat, limit: nat, distance: nat) returns (len: nat)
    requires 1 <= distance <= pos && pos + limit <= |inp|
    ensures len == Reach(inp, pos, limit, distance, 0)
  {
    len := 0;
    while len < limit && inp[pos + len] == inp[pos - distance + len]
      invariant len <= limit && Reach(inp, pos, limit, distance, len) == Reach(inp, pos, limit, distance, 0)
    {
      len := len + 1;
    }
  }

  /** `find_match`: walking the tables is walking the positions with the same hash. */
  method FindMatch(inp: seq<byte>, pos: nat, head: array<int>, prev: array<int>, cfg: LevelConfig)
    returns (len: nat, dist: nat)
    requires pos + MIN_MATCH <= |inp| && Chained(inp, pos, head, prev)
    ensures Found(len, dist) == MatchAt(inp, pos, cfg)
  {
    hide Hash3, Newest, Reach;
    var maxLen := if |inp| - pos > MAX_MATCH then MAX_MATCH else |inp| - pos;
    var bestLen: nat, bestDist: nat := 0, 0;
    var chain := cfg.maxChain;
    var candidate := head[Hash3(inp, pos)];
    ghost var target := Along(inp, pos, maxLen, cfg.goodLength, candidate, chain, Found(0, 0));
    while candidate >= 0 && chain > 0
      invariant OnChain(inp, pos, candidate) && bestLen <= maxLen
      invariant Along(inp, pos, maxLen, cfg.goodLength, candidate, chain, Found(bestLen, bestDist)) == target
      decreases chain
    {
      if bestLen >= maxLen { break; }
      var distance: nat := pos - candidate;
      if distance > WINDOW_SIZE { break; }
      assert Linked(inp, candidate, prev);
      chain := chain - 1;
      if bestLen == 0 || inp[pos + bestLen] == inp[candidate + bestLen] {
        var l := MatchLength(inp, pos, maxLen, distance);
        if l > bestLen {
          bestLen, bestDist := l, distance;
          if bestLen >= cfg.goodLength { chain := chain / 4; }
        }
      }
      candidate := prev[candidate % WINDOW_SIZE];
    }
    assert Found(bestLen, bestDist) == target;
    if bestLen >= MIN_MATCH {
      len, dist := bestLen, bestDist;
    } else {
      len, dist := 0, 0;
    }
  }

  // ---------------------------------------------------------------- the parse

  /** The chains, as far as the next search can see them. */
  ghost predicate Ready(inp: seq<byte>, pos: nat, head: array<int>, prev: array<int>)
    reads head, prev
  {
    && head.Length == HASH_SIZE && prev.Length == WINDOW_SIZE && head != prev
    && (pos + MIN_MATCH <= |inp| ==> Chained(inp, pos, head, prev))
  }

  /** Inserts positions `k .. end`, as far as three bytes remain. */
  method InsertUpTo(inp: seq<byte>, from: nat, end: nat, head: array<int>, prev: array<int>)
    requires from <= end <= |inp| && Ready(inp, from, head, prev)
    modifies head, prev
    ensures Ready(inp, end, head, prev)
  {
    hide Chained;
    var k := from;
    while k < end && k + MIN_MATCH <= |inp|
      invariant from <= k <= end && Ready(inp, k, head, prev)
    {
      Insert(inp, k, head, prev);
      k := k + 1;
    }
  }

  /** Finds the match at `pos`, then puts `pos` itself into its chain. */
  method Search(inp: seq<byte>, pos: nat, head: array<int>, prev: array<int>, cfg: LevelConfig)
    returns (len: nat, dist: nat)
    requires pos < |inp| && Ready(inp, pos, head, prev) && cfg.maxChain >= 1
    modifies head, prev
    ensures Ready(inp, pos + 1, head, prev)
    ensures Found(len, dist) == MatchHere(inp, pos, cfg)
  {
    hide Chained, MatchAt, MatchOk;
    len, dist := 0, 0;
    if pos + MIN_MATCH <= |inp| {
      len, dist := FindMatch(inp, pos, head, prev, cfg);
      Insert(inp, pos, head, prev);
    }
  }

  /** `lz77_parse`. */
  method Parse(inp: seq<byte>, level: nat) returns (tokens: seq<Token>)
    requires 1 <= level <= 9
    ensures tokens == TokensOf(inp, level)
  {
    var cfg := Level(level);
    var head, prev := new int[HASH_SIZE](_ => -1), new int[WINDOW_SIZE];
    if cfg.isLazy {
      tokens := ParseLazily(inp, head, prev, cfg);
    } else {
      tokens := ParseGreedily(inp, head, prev, cfg);
    }
  }

  method ParseGreedily(inp: seq<byte>, head: array<int>, prev: array<int>, cfg: LevelConfig)
    returns (tokens: seq<Token>)
    requires Ready(inp, 0, head, prev) && cfg.maxChain >= 1
    modifies head, prev
    ensures tokens == Greedy(inp, 0, cfg)
  {
    hide MatchOk, MatchHere, Ready;
    var pos := 0;
    tokens := [];
    while pos < |inp|
      invariant pos <= |inp| && Ready(inp, pos, head, prev)
      invariant tokens + Greedy(inp, pos, cfg) == Greedy(inp, 0, cfg)
    {
      var len, dist := Search(inp, pos, head, prev, cfg);
      if len >= MIN_MATCH {
        MatchStaysInside(inp, pos, len, dist);
        tokens := tokens + [Match(len, dist)];
        InsertUpTo(inp, pos + 1, pos + len, head, prev);
        pos := pos + len;
      } else {
        if len > 0 { MatchStaysInside(inp, pos, len, dist); }
        tokens := tokens + [Literal(inp[pos])];
        pos := pos + 1;
      }
    }
    assert tokens + [] == tokens;
  }

  /** A match is held back one byte, in case a longer one starts there. */
  method ParseLazily(inp: seq<byte>, head: array<int>, prev: array<int>, cfg: LevelConfig)
    returns (tokens: seq<Token>)
    requires Ready(inp, 0, head, prev) && cfg.maxChain >= 1
    modifies head, prev
    ensures tokens == Lazy(inp, 0, Found(0, 0), cfg)
  {
    hide MatchOk, MatchHere, Ready, Lazy;
    var pos := 0;
    tokens := [];
    var havePrev, prevLen: nat, prevDist: nat, prevPos: nat := false, 0, 0, 0;
    ghost var held := Found(0, 0);
    while pos < |inp|
      invariant pos <= |inp| && Ready(inp, pos, head, prev) && Held(inp, pos, held)
      invariant if havePrev then held == Found(prevLen, prevDist) && prevLen > 0 && prevPos == pos - 1
                else held == Found(0, 0)
      invariant tokens + Lazy(inp, pos, held, cfg) == Lazy(inp, 0, Found(0, 0), cfg)
    {
      var len, dist := Search(inp, pos, head, prev, cfg);
      if len > 0 { MatchStaysInside(inp, pos, len, dist); }
      LazyTakes(inp, pos, held, cfg, tokens);
      if havePrev {
        MatchStaysInside(inp, prevPos, prevLen, prevDist);
        if len > prevLen {
          // The later match wins; the held byte goes out as a literal.
          tokens := tokens + [Literal(inp[prevPos])];
          prevLen, prevDist, prevPos := len, dist, pos;
          pos, held := pos + 1, Found(len, dist);
        } else {
          tokens := tokens + [Match(prevLen, prevDist)];
          var end := prevPos + prevLen;
          InsertUpTo(inp, pos + 1, end, head, prev);
          pos, held := end, Found(0, 0);
          havePrev, prevLen := false, 0;
        }
      } else if len >= MIN_MATCH {
        havePrev, prevLen, prevDist, prevPos := true, len, dist, pos;
        pos, held := pos + 1, Found(len, dist);
      } else {
        tokens := tokens + [Literal(inp[pos])];
        pos := pos + 1;
      }
    }
    // A held match has at least two more bytes ahead of it, so none is left over here.
    if havePrev { MatchStaysInside(inp, prevPos, prevLen, prevDist); }
    LazyEnds(inp, held, cfg);
    assert !havePrev && tokens + [] == tokens;
  }
}
