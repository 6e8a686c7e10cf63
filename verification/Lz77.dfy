/** LZ77 with lazy matching: what tokens mean, and which tokens `find_match` and `lz77_parse` of
    `C-Deflate/src/deflate.c` choose, as functions of the input and the level alone. */
module Lz77 {
  import opened DeflateBits
  import opened DeflateTables

  datatype Token = Literal(b: byte) | Match(length: nat, distance: nat)

  // ---------------------------------------------------------------- what tokens mean

  /** Byte-at-a-time copy: a match may read what it has itself just written. */
  function Copy(out: seq<byte>, length: nat, distance: nat): (r: seq<byte>)
    ensures |r| >= |out| && r[..|out|] == out
    ensures 1 <= distance <= |out| ==> |r| == |out| + length
    decreases length
  {
    if length == 0 || distance == 0 || distance > |out| then out
    else Copy(out + [out[|out| - distance]], length - 1, distance)
  }

  function Size(t: Token): nat {
    match t
    case Literal(_) => 1
    case Match(length, _) => length
  }

  /** The `length` bytes at `pos` equal those `distance` before, overlap included. */
  ghost predicate Repeats(inp: seq<byte>, pos: nat, length: nat, distance: nat) {
    && 1 <= distance <= pos && pos + length <= |inp|
    && forall i :: pos <= i < pos + length ==> inp[i] == inp[i - distance]
  }

  /** The `length` bytes at `pos` all equal the one before them. */
  ghost predicate Run(inp: seq<byte>, pos: nat, length: nat) {
    Repeats(inp, pos, length, 1)
  }

  /** A match the format can express; one that is a run is always taken at distance 1. */
  ghost predicate MatchOk(inp: seq<byte>, pos: nat, length: nat, distance: nat) {
    && MIN_MATCH <= length <= MAX_MATCH && 1 <= distance <= WINDOW_SIZE
    && Repeats(inp, pos, length, distance)
    && (distance != 1 ==> !Run(inp, pos, length))
  }

  ghost predicate TokenOk(inp: seq<byte>, pos: nat, t: Token) {
    match t
    case Literal(b) => pos < |inp| && inp[pos] == b
    case Match(length, distance) => MatchOk(inp, pos, length, distance)
  }

  /** The tokens, one after another, spell exactly the first `p` bytes of the input. */
  ghost predicate Spells(inp: seq<byte>, ts: seq<Token>, p: nat) {
    if ts == [] then p == 0
    else
      var t := ts[|ts| - 1];
      Size(t) <= p && TokenOk(inp, p - Size(t), t) && Spells(inp, ts[..|ts| - 1], p - Size(t))
  }

  lemma SpellsMore(inp: seq<byte>, ts: seq<Token>, p: nat, t: Token)
    requires Spells(inp, ts, p) && TokenOk(inp, p, t)
    ensures Spells(inp, ts + [t], p + Size(t))
  {
    assert (ts + [t])[..|ts|] == ts;
  }

  /** What a decoder does with one token. */
  function Apply(out: seq<byte>, t: Token): seq<byte> {
    match t
    case Literal(b) => out + [b]
    case Match(length, distance) => Copy(out, length, distance)
  }

  function Expand(ts: seq<Token>): seq<byte> {
    if ts == [] then [] else Apply(Expand(ts[..|ts| - 1]), ts[|ts| - 1])
  }

  lemma {:induction false} CopyRepeats(inp: seq<byte>, pos: nat, length: nat, distance: nat, done: nat)
    requires Repeats(inp, pos, length, distance) && done <= length
    ensures Copy(inp[..pos + done], length - done, distance) == inp[..pos + length]
    decreases length - done
  {
    if done < length {
      var p := pos + done;
      assert inp[p - distance] == inp[p];
      assert inp[..p] + [inp[p]] == inp[..p + 1];
      CopyRepeats(inp, pos, length, distance, done + 1);
    }
  }

  lemma ApplyExtends(inp: seq<byte>, pos: nat, t: Token)
    requires TokenOk(inp, pos, t)
    ensures Size(t) >= 1 && pos + Size(t) <= |inp|
    ensures Apply(inp[..pos], t) == inp[..pos + Size(t)]
  {
    hide Copy, Run;
    match t
    case Literal(b) => assert inp[..pos] + [b] == inp[..pos + 1];
    case Match(length, distance) =>
      CopyRepeats(inp, pos, length, distance, 0);
      assert inp[..pos + 0] == inp[..pos];
  }

  lemma ExpandLast(ts: seq<Token>)
    requires ts != []
    ensures Expand(ts) == Apply(Expand(ts[..|ts| - 1]), ts[|ts| - 1])
  {}

  lemma SpellsLast(inp: seq<byte>, ts: seq<Token>, p: nat)
    requires Spells(inp, ts, p) && ts != []
    ensures var t := ts[|ts| - 1];
      Size(t) <= p && TokenOk(inp, p - Size(t), t) && Spells(inp, ts[..|ts| - 1], p - Size(t))
  {
    hide TokenOk;
  }

  lemma SpellsNothing(inp: seq<byte>, p: nat)
    requires Spells(inp, [], p)
    ensures p == 0 && Expand([]) == []
  {}

  /** Tokens that spell the input expand back to it. */
  lemma {:induction false} SpelledExpands(inp: seq<byte>, ts: seq<Token>, p: nat)
    requires Spells(inp, ts, p)
    ensures p <= |inp| && Expand(ts) == inp[..p]
    ensures |ts| <= p
  {
    hide Spells, TokenOk, Apply, Copy, Expand;
    if ts == [] {
      SpellsNothing(inp, p);
    } else {
      SpellsLast(inp, ts, p);
      ExpandLast(ts);
      var t := ts[|ts| - 1];
      SpelledExpands(inp, ts[..|ts| - 1], p - Size(t));
      ApplyExtends(inp, p - Size(t), t);
    }
  }

  // ---------------------------------------------------------------- the match search

  const HASH_SIZE: nat := 32768

  function Xor(a: nat, b: nat): nat {
    if a == 0 && b == 0 then 0
    else (if a % 2 == b % 2 then 0 else 1) + 2 * Xor(a / 2, b / 2)
  }

  /** Three bytes, shifted apart, folded together and masked to 15 bits. */
  function Hash3(inp: seq<byte>, p: nat): (h: nat)
    requires p + 3 <= |inp|
    ensures h < HASH_SIZE
  {
    var a: nat, b: nat, c: nat := inp[p], inp[p + 1], inp[p + 2];
    Xor(Xor(a * 1024, b * 32), c) % HASH_SIZE
  }

  /** The last position before `n` with this hash, or -1. */
  function Newest(inp: seq<byte>, n: nat, h: nat): (c: int)
    ensures -1 <= c < n && (c >= 0 ==> c + 3 <= |inp|)
  {
    if n == 0 then -1
    else if n + 2 <= |inp| && Hash3(inp, n - 1) == h then n - 1
    else Newest(inp, n - 1, h)
  }

  /** The position before `c` with the same hash, or -1. */
  function Older(inp: seq<byte>, c: nat): (d: int)
    requires c + 3 <= |inp|
    ensures OnChain(inp, c, d)
  {
    Newest(inp, c, Hash3(inp, c))
  }

  datatype LevelConfig = LevelConfig(goodLength: nat, maxChain: nat, isLazy: bool)

  function Level(level: nat): (c: LevelConfig)
    requires 1 <= level <= 9
    ensures c.maxChain >= 1 && c.goodLength >= MIN_MATCH
  {
    if level == 1 then LevelConfig(4, 4, false)
    else if level == 2 then LevelConfig(4, 8, false)
    else if level == 3 then LevelConfig(4, 32, false)
    else if level == 4 then LevelConfig(4, 16, true)
    else if level == 5 then LevelConfig(8, 32, true)
    else if level == 6 then LevelConfig(8, 128, true)
    else if level == 7 then LevelConfig(8, 256, true)
    else if level == 8 then LevelConfig(32, 1024, true)
    else LevelConfig(32, 4096, true)
  }

  /** How far, up to `limit`, `pos` goes on repeating what lies `distance` before it. */
  function Reach(inp: seq<byte>, pos: nat, limit: nat, distance: nat, len: nat): (l: nat)
    requires 1 <= distance <= pos && pos + limit <= |inp| && len <= limit
    ensures len <= l <= limit
    decreases limit - len
  {
    if len < limit && inp[pos + len] == inp[pos - distance + len]
    then Reach(inp, pos, limit, distance, len + 1) else len
  }

  lemma {:induction false} ReachIsMaximal(inp: seq<byte>, pos: nat, limit: nat, distance: nat, len: nat)
    requires 1 <= distance <= pos && pos + limit <= |inp| && len <= limit && Repeats(inp, pos, len, distance)
    ensures var l := Reach(inp, pos, limit, distance, len);
      Repeats(inp, pos, l, distance) && (l < limit ==> inp[pos + l] != inp[pos - distance + l])
    decreases limit - len
  {
    if len < limit && inp[pos + len] == inp[pos - distance + len] {
      ReachIsMaximal(inp, pos, limit, distance, len + 1);
    }
  }

  /** A match: how long and how far back; length 0 for none. */
  datatype Found = Found(len: nat, dist: nat)

  /** A position on the chain that the search may look at. */
  ghost predicate OnChain(inp: seq<byte>, pos: nat, candidate: int) {
    -1 <= candidate < pos && (candidate >= 0 ==> candidate + 3 <= |inp|)
  }

  /** The search down the chain of positions with the same hash: it keeps the first longest match,
      looks at no more than `chain` candidates, fewer once a match is good, and none past the window. */
  function Along(inp: seq<byte>, pos: nat, maxLen: nat, good: nat, candidate: int, chain: nat, best: Found): (f: Found)
    requires OnChain(inp, pos, candidate) && pos + maxLen <= |inp| && best.len <= maxLen
    ensures f.len <= maxLen
    decreases chain
  {
    if candidate < 0 || chain == 0 || best.len >= maxLen || pos - candidate > WINDOW_SIZE then best
    else
      var next := Older(inp, candidate);
      if best.len > 0 && inp[pos + best.len] != inp[candidate + best.len] then
        Along(inp, pos, maxLen, good, next, chain - 1, best)
      else
        var l := Reach(inp, pos, maxLen, pos - candidate, 0);
        if l <= best.len then Along(inp, pos, maxLen, good, next, chain - 1, best)
        else
          var left := if l >= good then (chain - 1) / 4 else chain - 1;
          Along(inp, pos, maxLen, good, next, left, Found(l, pos - candidate))
  }

  /** No match is longer than this. */
  function Longest(inp: seq<byte>, pos: nat): (n: nat)
    requires pos <= |inp|
    ensures n <= MAX_MATCH && pos + n <= |inp|
  {
    if |inp| - pos > MAX_MATCH then MAX_MATCH else |inp| - pos
  }

  /** The match `find_match` returns. */
  function MatchAt(inp: seq<byte>, pos: nat, cfg: LevelConfig): (f: Found)
    requires pos + MIN_MATCH <= |inp|
  {
    var first := Newest(inp, pos, Hash3(inp, pos));
    var best := Along(inp, pos, Longest(inp, pos), cfg.goodLength, first, cfg.maxChain, Found(0, 0));
    if best.len >= MIN_MATCH then best else Found(0, 0)
  }

  /** The best match so far is one. */
  ghost predicate Best(inp: seq<byte>, pos: nat, f: Found) {
    f.len > 0 ==> 1 <= f.dist <= WINDOW_SIZE && Repeats(inp, pos, f.len, f.dist)
  }

  /** No run here is longer than the best match, and none as long unless it is the best match. */
  ghost predicate BeatsRuns(inp: seq<byte>, pos: nat, maxLen: nat, f: Found) {
    && (forall l: nat :: l <= maxLen && Run(inp, pos, l) ==> l <= f.len)
    && (f.len > 0 && f.dist != 1 ==> !Run(inp, pos, f.len))
  }

  lemma {:induction false} AlongKeeps(
    inp: seq<byte>, pos: nat, maxLen: nat, good: nat, candidate: int, chain: nat, best: Found)
    requires OnChain(inp, pos, candidate) && pos + maxLen <= |inp| && best.len <= maxLen && Best(inp, pos, best)
    ensures var f := Along(inp, pos, maxLen, good, candidate, chain, best);
      Best(inp, pos, f) && (BeatsRuns(inp, pos, maxLen, best) ==> BeatsRuns(inp, pos, maxLen, f))
    decreases chain
  {
    hide Run, Repeats, Hash3, Newest, Reach;
    if !(candidate < 0 || chain == 0 || best.len >= maxLen || pos - candidate > WINDOW_SIZE) {
      var next := Older(inp, candidate);
      var distance := pos - candidate;
      var l := Reach(inp, pos, maxLen, distance, 0);
      ReachedRepeats(inp, pos, maxLen, distance);
      if (best.len > 0 && inp[pos + best.len] != inp[candidate + best.len]) || l <= best.len {
        AlongKeeps(inp, pos, maxLen, good, next, chain - 1, best);
      } else {
        AlongKeeps(inp, pos, maxLen, good, next, if l >= good then (chain - 1) / 4 else chain - 1, Found(l, distance));
      }
    }
  }

  lemma ReachedRepeats(inp: seq<byte>, pos: nat, limit: nat, distance: nat)
    requires 1 <= distance <= pos && pos + limit <= |inp|
    ensures var l := Reach(inp, pos, limit, distance, 0);
      Repeats(inp, pos, l, distance) && (l < limit ==> inp[pos + l] != inp[pos - distance + l])
  {
    ReachIsMaximal(inp, pos, limit, distance, 0);
  }

  /** Where a run begins, the byte before is the newest of the same hash. */
  lemma RunIsNewest(inp: seq<byte>, pos: nat, len: nat)
    requires len >= MIN_MATCH && Run(inp, pos, len)
    ensures pos >= 1 && Newest(inp, pos, Hash3(inp, pos)) == pos - 1
  {
    assert inp[pos] == inp[pos - 1] && inp[pos + 1] == inp[pos] && inp[pos + 2] == inp[pos + 1];
  }

  /** The first candidate, when it is the byte before, is the longest run. */
  lemma FirstBeatsRuns(inp: seq<byte>, pos: nat, maxLen: nat, l: nat)
    requires 1 <= pos && pos + maxLen <= |inp| && l <= maxLen
    requires l < maxLen ==> inp[pos + l] != inp[pos - 1 + l]
    ensures BeatsRuns(inp, pos, maxLen, Found(l, 1))
  {}

  lemma NewestBeatsRuns(inp: seq<byte>, pos: nat, maxLen: nat, good: nat, chain: nat)
    requires pos >= 1 && 3 <= maxLen && pos + maxLen <= |inp| && chain >= 1
    ensures BeatsRuns(inp, pos, maxLen, Along(inp, pos, maxLen, good, pos - 1, chain, Found(0, 0)))
  {
    hide Run, Repeats, Hash3, Newest, Reach, BeatsRuns;
    var l := Reach(inp, pos, maxLen, 1, 0);
    ReachedRepeats(inp, pos, maxLen, 1);
    FirstBeatsRuns(inp, pos, maxLen, l);
    var next := Older(inp, pos - 1);
    if l == 0 {
      NoMatchBeats(inp, pos, maxLen);
      AlongKeeps(inp, pos, maxLen, good, next, chain - 1, Found(0, 0));
    } else {
      AlongKeeps(inp, pos, maxLen, good, next, if l >= good then (chain - 1) / 4 else chain - 1, Found(l, 1));
    }
  }

  lemma NoMatchBeats(inp: seq<byte>, pos: nat, maxLen: nat)
    requires BeatsRuns(inp, pos, maxLen, Found(0, 1))
    ensures BeatsRuns(inp, pos, maxLen, Found(0, 0))
  {}

  /** `find_match` finds nothing, or a match the format can express. */
  lemma MatchAtOk(inp: seq<byte>, pos: nat, cfg: LevelConfig)
    requires pos + MIN_MATCH <= |inp| && cfg.maxChain >= 1
    ensures var f := MatchAt(inp, pos, cfg); f.len == 0 || MatchOk(inp, pos, f.len, f.dist)
  {
    hide Run, Repeats, Hash3, Newest, Along, BeatsRuns;
    var maxLen, first := Longest(inp, pos), Newest(inp, pos, Hash3(inp, pos));
    AlongKeeps(inp, pos, maxLen, cfg.goodLength, first, cfg.maxChain, Found(0, 0));
    var f := MatchAt(inp, pos, cfg);
    if f.len > 0 && Run(inp, pos, f.len) {
      RunIsNewest(inp, pos, f.len);
      NewestBeatsRuns(inp, pos, maxLen, cfg.goodLength, cfg.maxChain);
      RunIsTakenNear(inp, pos, maxLen, f);
    }
  }

  lemma RunIsTakenNear(inp: seq<byte>, pos: nat, maxLen: nat, f: Found)
    requires BeatsRuns(inp, pos, maxLen, f) && f.len > 0 && Run(inp, pos, f.len)
    ensures f.dist == 1
  {}

  // ---------------------------------------------------------------- the longest match

  /** The newest position before `n` with this hash, and none newer. */
  lemma {:induction false} NewestIs(inp: seq<byte>, n: nat, h: nat)
    ensures var c := Newest(inp, n, h);
      && (c >= 0 ==> Hash3(inp, c) == h)
      && forall k: nat :: c < k < n && k + 3 <= |inp| ==> Hash3(inp, k) != h
  {
    hide Hash3;
    if n > 0 && !(n + 2 <= |inp| && Hash3(inp, n - 1) == h) { NewestIs(inp, n - 1, h); }
  }

  /** How many candidates there are from this one on within the window. */
  function Candidates(inp: seq<byte>, pos: nat, candidate: int): nat
    requires OnChain(inp, pos, candidate)
    decreases candidate
  {
    if candidate < 0 || pos - candidate > WINDOW_SIZE then 0
    else 1 + Candidates(inp, pos, Older(inp, candidate))
  }

  lemma {:induction false} AlongGrows(
    inp: seq<byte>, pos: nat, maxLen: nat, good: nat, candidate: int, chain: nat, best: Found)
    requires OnChain(inp, pos, candidate) && pos + maxLen <= |inp| && best.len <= maxLen
    ensures var f := Along(inp, pos, maxLen, good, candidate, chain, best); f == best || f.len > best.len
    decreases chain
  {
    hide Reach, Hash3, Newest;
    if !(candidate < 0 || chain == 0 || best.len >= maxLen || pos - candidate > WINDOW_SIZE) {
      var next, l := Older(inp, candidate), Reach(inp, pos, maxLen, pos - candidate, 0);
      if (best.len > 0 && inp[pos + best.len] != inp[candidate + best.len]) || l <= best.len {
        AlongGrows(inp, pos, maxLen, good, next, chain - 1, best);
      } else {
        var left := if l >= good then (chain - 1) / 4 else chain - 1;
        AlongGrows(inp, pos, maxLen, good, next, left, Found(l, pos - candidate));
      }
    }
  }

  /** Longer, or as long and no farther back, or good enough to have cut the search short. */
  ghost predicate NoWorse(f: Found, good: nat, l: nat, d: nat) {
    f.len >= good || f.len > l || (f.len == l && f.dist <= d)
  }

  /** A match at a candidate not yet looked at is not missed, unless the search ends early. */
  lemma {:induction false} AlongMisses(
    inp: seq<byte>, pos: nat, maxLen: nat, good: nat, candidate: int, chain: nat, best: Found, l: nat, d: nat)
    requires pos + 3 <= |inp| && OnChain(inp, pos, candidate) && pos + maxLen <= |inp| && best.len <= maxLen
    requires candidate >= 0 ==> Hash3(inp, candidate) == Hash3(inp, pos)
    requires Candidates(inp, pos, candidate) <= chain && (best.len > 0 ==> best.dist < pos - candidate)
    requires 3 <= l <= maxLen && d <= WINDOW_SIZE && Repeats(inp, pos, l, d) && pos - d <= candidate
    ensures NoWorse(Along(inp, pos, maxLen, good, candidate, chain, best), good, l, d)
    decreases chain
  {
    hide Reach, Hash3, Newest, Repeats, Along;
    RepeatHash(inp, pos, l, d);
    NewestIs(inp, candidate, Hash3(inp, candidate));
    AlongIs(inp, pos, maxLen, good, candidate, chain, best);
    if pos - candidate == d {
      AlongHits(inp, pos, maxLen, good, candidate, chain, best, l);
    } else if best.len < maxLen {
      var next, here := Older(inp, candidate), pos - candidate;
      var r := Reach(inp, pos, maxLen, here, 0);
      if (best.len > 0 && inp[pos + best.len] != inp[candidate + best.len]) || r <= best.len {
        AlongMisses(inp, pos, maxLen, good, next, chain - 1, best, l, d);
      } else if r < good {
        AlongMisses(inp, pos, maxLen, good, next, chain - 1, Found(r, here), l, d);
      } else {
        AlongGrows(inp, pos, maxLen, good, next, (chain - 1) / 4, Found(r, here));
      }
    }
  }

  lemma AlongIs(inp: seq<byte>, pos: nat, maxLen: nat, good: nat, candidate: nat, chain: nat, best: Found)
    requires OnChain(inp, pos, candidate) && pos + maxLen <= |inp| && best.len <= maxLen
    requires chain >= 1 && pos - candidate <= WINDOW_SIZE
    ensures var f, next := Along(inp, pos, maxLen, good, candidate, chain, best), Older(inp, candidate);
      var r := Reach(inp, pos, maxLen, pos - candidate, 0);
      f == if best.len >= maxLen then best
           else if (best.len > 0 && inp[pos + best.len] != inp[candidate + best.len]) || r <= best.len
           then Along(inp, pos, maxLen, good, next, chain - 1, best)
           else Along(inp, pos, maxLen, good, next, if r >= good then (chain - 1) / 4 else chain - 1,
                      Found(r, pos - candidate))
  {
    hide Reach, Hash3, Newest;
  }

  /** Nor one at the candidate itself. */
  lemma AlongHits(
    inp: seq<byte>, pos: nat, maxLen: nat, good: nat, candidate: nat, chain: nat, best: Found, l: nat)
    requires OnChain(inp, pos, candidate) && pos + maxLen <= |inp| && best.len <= maxLen && chain >= 1
    requires best.len > 0 ==> best.dist < pos - candidate
    requires 3 <= l <= maxLen && pos - candidate <= WINDOW_SIZE && Repeats(inp, pos, l, pos - candidate)
    ensures NoWorse(Along(inp, pos, maxLen, good, candidate, chain, best), good, l, pos - candidate)
  {
    hide Reach, Hash3, Newest, Repeats;
    AlongGrows(inp, pos, maxLen, good, candidate, chain, best);
    if best.len < maxLen {
      var next, d := Older(inp, candidate), pos - candidate;
      var r := Reach(inp, pos, maxLen, d, 0);
      ReachedRepeats(inp, pos, maxLen, d);
      RepeatsReach(inp, pos, maxLen, l, d, r, best.len);
      if !(best.len > 0 && inp[pos + best.len] != inp[candidate + best.len]) && r > best.len {
        AlongGrows(inp, pos, maxLen, good, next, if r >= good then (chain - 1) / 4 else chain - 1, Found(r, d));
      }
    }
  }

  /** Three equal bytes have one hash. */
  lemma RepeatHash(inp: seq<byte>, pos: nat, l: nat, d: nat)
    requires l >= 3 && Repeats(inp, pos, l, d)
    ensures d <= pos && pos - d + 3 <= |inp| && Hash3(inp, pos - d) == Hash3(inp, pos)
  {
    assert inp[pos] == inp[pos - d] && inp[pos + 1] == inp[pos + 1 - d] && inp[pos + 2] == inp[pos + 2 - d];
  }

  /** What is known to repeat is reached; and where the next byte differs, it is no longer than that. */
  lemma RepeatsReach(inp: seq<byte>, pos: nat, maxLen: nat, l: nat, d: nat, r: nat, best: nat)
    requires l <= maxLen && r <= maxLen && pos + maxLen <= |inp| && Repeats(inp, pos, l, d)
    requires r < maxLen ==> inp[pos + r] != inp[pos - d + r]
    ensures r >= l && (best < maxLen && inp[pos + best] != inp[pos - d + best] ==> l <= best)
  {}

  /** `find_match` finds the longest match there is in the window, the nearest of these, whenever no
      more positions in the window have the hash than the level looks at, and what it finds is not so
      good that it stopped looking. */
  lemma LongestIsFound(inp: seq<byte>, pos: nat, cfg: LevelConfig, l: nat, d: nat)
    requires pos + MIN_MATCH <= |inp| && MIN_MATCH <= l <= MAX_MATCH && d <= WINDOW_SIZE && Repeats(inp, pos, l, d)
    requires Candidates(inp, pos, Newest(inp, pos, Hash3(inp, pos))) <= cfg.maxChain && cfg.goodLength >= MIN_MATCH
    ensures NoWorse(MatchAt(inp, pos, cfg), cfg.goodLength, l, d)
  {
    hide Hash3, Newest, Along, Repeats, Candidates;
    var first := Newest(inp, pos, Hash3(inp, pos));
    LongestHolds(inp, pos, l, d);
    RepeatHash(inp, pos, l, d);
    NewestIs(inp, pos, Hash3(inp, pos));
    AlongMisses(inp, pos, Longest(inp, pos), cfg.goodLength, first, cfg.maxChain, Found(0, 0), l, d);
  }

  lemma LongestHolds(inp: seq<byte>, pos: nat, l: nat, d: nat)
    requires pos <= |inp| && l <= MAX_MATCH && Repeats(inp, pos, l, d)
    ensures l <= Longest(inp, pos) && d >= 1
  {}

  // ---------------------------------------------------------------- the parse

  /** The match at a position, none where fewer than three bytes remain. */
  function MatchHere(inp: seq<byte>, pos: nat, cfg: LevelConfig): (f: Found)
    requires cfg.maxChain >= 1
    ensures f.len == 0 || MatchOk(inp, pos, f.len, f.dist)
  {
    if pos + MIN_MATCH <= |inp| then
      MatchAtOk(inp, pos, cfg);
      MatchAt(inp, pos, cfg)
    else Found(0, 0)
  }

  lemma MatchStaysInside(inp: seq<byte>, pos: nat, len: nat, dist: nat)
    requires MatchOk(inp, pos, len, dist)
    ensures len >= MIN_MATCH && pos + len <= |inp|
  {}

  /** The tokens from `pos` on, every match taken as found. */
  function Greedy(inp: seq<byte>, pos: nat, cfg: LevelConfig): seq<Token>
    requires pos <= |inp| && cfg.maxChain >= 1
    decreases |inp| - pos
  {
    if pos == |inp| then []
    else
      var f := MatchHere(inp, pos, cfg);
      if f.len > 0 then [Match(f.len, f.dist)] + Greedy(inp, pos + f.len, cfg)
      else [Literal(inp[pos])] + Greedy(inp, pos + 1, cfg)
  }

  /** The match held back at `pos - 1`, if any. */
  ghost predicate Held(inp: seq<byte>, pos: nat, held: Found) {
    held.len > 0 ==> pos >= 1 && MatchOk(inp, pos - 1, held.len, held.dist)
  }

  /** The tokens from `pos` on, or from `pos - 1` on when a match is held back there in case a longer
      one starts at `pos`. */
  function Lazy(inp: seq<byte>, pos: nat, held: Found, cfg: LevelConfig): seq<Token>
    requires pos <= |inp| && Held(inp, pos, held) && cfg.maxChain >= 1
    decreases |inp| - pos
  {
    if pos == |inp| then []
    else
      var f := MatchHere(inp, pos, cfg);
      if held.len > 0 then
        if f.len > held.len then [Literal(inp[pos - 1])] + Lazy(inp, pos + 1, f, cfg)
        else [Match(held.len, held.dist)] + Lazy(inp, pos - 1 + held.len, Found(0, 0), cfg)
      else if f.len > 0 then Lazy(inp, pos + 1, f, cfg)
      else [Literal(inp[pos])] + Lazy(inp, pos + 1, Found(0, 0), cfg)
  }

  /** The tokens `lz77_parse` chooses: greedily at levels 1 to 3 and lazily above. */
  function TokensOf(inp: seq<byte>, level: nat): seq<Token>
    requires 1 <= level <= 9
  {
    if Level(level).isLazy then Lazy(inp, 0, Found(0, 0), Level(level)) else Greedy(inp, 0, Level(level))
  }

  /** The token for what was found here is right. */
  function Chosen(inp: seq<byte>, pos: nat, f: Found): (t: Token)
    requires pos < |inp|
    ensures (f.len == 0 || MatchOk(inp, pos, f.len, f.dist)) ==> TokenOk(inp, pos, t)
  {
    if f.len > 0 then Match(f.len, f.dist) else Literal(inp[pos])
  }

  lemma {:induction false} GreedySpells(inp: seq<byte>, pos: nat, cfg: LevelConfig, ts: seq<Token>)
    requires pos <= |inp| && cfg.maxChain >= 1 && Spells(inp, ts, pos)
    ensures Spells(inp, ts + Greedy(inp, pos, cfg), |inp|)
    decreases |inp| - pos
  {
    hide Spells, MatchOk, MatchHere, TokenOk;
    if pos == |inp| {
      assert ts + [] == ts;
    } else {
      var f := MatchHere(inp, pos, cfg);
      if f.len > 0 { MatchStaysInside(inp, pos, f.len, f.dist); }
      var t := Chosen(inp, pos, f);
      var next := pos + Size(t);
      SpellsMore(inp, ts, pos, t);
      GreedySpells(inp, next, cfg, ts + [t]);
      assert ts + [t] + Greedy(inp, next, cfg) == ts + ([t] + Greedy(inp, next, cfg));
    }
  }

  /** What goes out at this step of the lazy parse, when anything does. */
  function Released(inp: seq<byte>, pos: nat, held: Found, f: Found): (t: Token)
    requires pos < |inp| && Held(inp, pos, held)
    ensures (f.len == 0 || held.len > 0) ==> TokenOk(inp, if held.len > 0 then pos - 1 else pos, t)
    ensures held.len > 0 && f.len <= held.len ==> t == Match(held.len, held.dist)
  {
    if held.len == 0 then Literal(inp[pos])
    else if f.len > held.len then Literal(inp[pos - 1])
    else Match(held.len, held.dist)
  }

  lemma {:induction false} LazySpells(inp: seq<byte>, pos: nat, held: Found, cfg: LevelConfig, ts: seq<Token>)
    requires pos <= |inp| && Held(inp, pos, held) && cfg.maxChain >= 1
    requires Spells(inp, ts, if held.len > 0 then pos - 1 else pos)
    ensures Spells(inp, ts + Lazy(inp, pos, held, cfg), |inp|)
    decreases |inp| - pos
  {
    hide Spells, MatchOk, MatchHere, TokenOk;
    if held.len > 0 { MatchStaysInside(inp, pos - 1, held.len, held.dist); }
    if pos == |inp| {
      assert ts + [] == ts;
    } else {
      var f := MatchHere(inp, pos, cfg);
      if held.len == 0 && f.len > 0 {
        LazySpells(inp, pos + 1, f, cfg, ts);
      } else {
        var t := Released(inp, pos, held, f);
        var keep := held.len > 0 && f.len > held.len;
        var next := if held.len == 0 || keep then pos + 1 else pos - 1 + held.len;
        var held' := if keep then f else Found(0, 0);
        SpellsMore(inp, ts, if held.len > 0 then pos - 1 else pos, t);
        assert Lazy(inp, pos, held, cfg) == [t] + Lazy(inp, next, held', cfg);
        hide Lazy, Released;
        LazySpells(inp, next, held', cfg, ts + [t]);
        assert ts + [t] + Lazy(inp, next, held', cfg) == ts + ([t] + Lazy(inp, next, held', cfg));
      }
    }
  }

  /** One step of the lazy parse. */
  lemma LazyIs(inp: seq<byte>, pos: nat, held: Found, cfg: LevelConfig)
    requires pos < |inp| && Held(inp, pos, held) && cfg.maxChain >= 1
    ensures var f, rest := MatchHere(inp, pos, cfg), Lazy(inp, pos, held, cfg);
      if held.len > 0 && f.len <= held.len then
        && pos - 1 + held.len <= |inp|
        && rest == [Match(held.len, held.dist)] + Lazy(inp, pos - 1 + held.len, Found(0, 0), cfg)
      else if held.len > 0 then rest == [Literal(inp[pos - 1])] + Lazy(inp, pos + 1, f, cfg)
      else if f.len > 0 then rest == Lazy(inp, pos + 1, f, cfg)
      else rest == [Literal(inp[pos])] + Lazy(inp, pos + 1, Found(0, 0), cfg)
  {
    hide MatchOk, MatchHere;
    if held.len > 0 { MatchStaysInside(inp, pos - 1, held.len, held.dist); }
  }

  /** And behind the tokens already out. */
  lemma LazyTakes(inp: seq<byte>, pos: nat, held: Found, cfg: LevelConfig, ts: seq<Token>)
    requires pos < |inp| && Held(inp, pos, held) && cfg.maxChain >= 1
    ensures var f, rest := MatchHere(inp, pos, cfg), ts + Lazy(inp, pos, held, cfg);
      if held.len > 0 && f.len <= held.len then
        && pos - 1 + held.len <= |inp|
        && rest == ts + [Match(held.len, held.dist)] + Lazy(inp, pos - 1 + held.len, Found(0, 0), cfg)
      else if held.len > 0 then rest == ts + [Literal(inp[pos - 1])] + Lazy(inp, pos + 1, f, cfg)
      else if f.len > 0 then rest == ts + Lazy(inp, pos + 1, f, cfg)
      else rest == ts + [Literal(inp[pos])] + Lazy(inp, pos + 1, Found(0, 0), cfg)
  {
    hide MatchOk, MatchHere, Lazy;
    var f := MatchHere(inp, pos, cfg);
    LazyIs(inp, pos, held, cfg);
    if held.len > 0 && f.len <= held.len {
      Regroup(ts, [Match(held.len, held.dist)], Lazy(inp, pos - 1 + held.len, Found(0, 0), cfg));
    } else if held.len > 0 {
      Regroup(ts, [Literal(inp[pos - 1])], Lazy(inp, pos + 1, f, cfg));
    } else if f.len == 0 {
      Regroup(ts, [Literal(inp[pos])], Lazy(inp, pos + 1, Found(0, 0), cfg));
    }
  }

  lemma Regroup(a: seq<Token>, b: seq<Token>, c: seq<Token>)
    ensures a + (b + c) == a + b + c
  {}

  lemma LazyEnds(inp: seq<byte>, held: Found, cfg: LevelConfig)
    requires Held(inp, |inp|, held) && cfg.maxChain >= 1
    ensures Lazy(inp, |inp|, held, cfg) == []
  {}

  // ---------------------------------------------------------------- which tokens

  /** The token for a position, on its own: the match found there, unless the level is lazy and a
      longer one begins at the next byte. */
  function Rule(inp: seq<byte>, pos: nat, cfg: LevelConfig): (t: Token)
    requires pos < |inp| && cfg.maxChain >= 1
  {
    var f := MatchHere(inp, pos, cfg);
    if f.len == 0 || (cfg.isLazy && MatchHere(inp, pos + 1, cfg).len > f.len) then Literal(inp[pos])
    else Match(f.len, f.dist)
  }

  /** Every token is the one for the position it stands at. */
  ghost predicate Follows(inp: seq<byte>, pos: nat, ts: seq<Token>, cfg: LevelConfig)
    requires cfg.maxChain >= 1
    decreases |ts|
  {
    if ts == [] then pos == |inp|
    else pos < |inp| && ts[0] == Rule(inp, pos, cfg) && Follows(inp, pos + Size(ts[0]), ts[1..], cfg)
  }

  lemma FollowsCons(inp: seq<byte>, pos: nat, t: Token, ts: seq<Token>, cfg: LevelConfig)
    requires cfg.maxChain >= 1 && pos < |inp| && t == Rule(inp, pos, cfg) && Follows(inp, pos + Size(t), ts, cfg)
    ensures Follows(inp, pos, [t] + ts, cfg)
  {
    hide Rule;
    assert ([t] + ts)[1..] == ts;
  }

  lemma {:induction false} GreedyFollows(inp: seq<byte>, pos: nat, cfg: LevelConfig)
    requires pos <= |inp| && cfg.maxChain >= 1 && !cfg.isLazy
    ensures Follows(inp, pos, Greedy(inp, pos, cfg), cfg)
    decreases |inp| - pos
  {
    hide MatchHere, MatchOk, Follows;
    if pos == |inp| {
      FollowsEnd(inp, cfg);
    } else {
      var f := MatchHere(inp, pos, cfg);
      if f.len > 0 { MatchStaysInside(inp, pos, f.len, f.dist); }
      var t := Rule(inp, pos, cfg);
      GreedyFollows(inp, pos + Size(t), cfg);
      FollowsCons(inp, pos, t, Greedy(inp, pos + Size(t), cfg), cfg);
    }
  }

  lemma FollowsEnd(inp: seq<byte>, cfg: LevelConfig)
    requires cfg.maxChain >= 1
    ensures Follows(inp, |inp|, [], cfg)
  {}

  lemma {:induction false} LazyFollows(inp: seq<byte>, pos: nat, held: Found, cfg: LevelConfig)
    requires pos <= |inp| && Held(inp, pos, held) && cfg.maxChain >= 1 && cfg.isLazy
    requires held.len > 0 ==> held == MatchHere(inp, pos - 1, cfg)
    ensures Follows(inp, if held.len > 0 then pos - 1 else pos, Lazy(inp, pos, held, cfg), cfg)
    decreases |inp| - pos
  {
    hide MatchHere, MatchOk, Follows, Lazy;
    if held.len > 0 { MatchStaysInside(inp, pos - 1, held.len, held.dist); }
    if pos == |inp| {
      LazyEnds(inp, held, cfg);
      FollowsEnd(inp, cfg);
    } else {
      LazyIs(inp, pos, held, cfg);
      var f := MatchHere(inp, pos, cfg);
      if held.len > 0 && f.len <= held.len {
        var next := pos - 1 + held.len;
        LazyFollows(inp, next, Found(0, 0), cfg);
        FollowsCons(inp, pos - 1, Match(held.len, held.dist), Lazy(inp, next, Found(0, 0), cfg), cfg);
      } else if held.len > 0 {
        LazyFollows(inp, pos + 1, f, cfg);
        FollowsCons(inp, pos - 1, Literal(inp[pos - 1]), Lazy(inp, pos + 1, f, cfg), cfg);
      } else {
        LazyFollows(inp, pos + 1, f, cfg);
        if f.len == 0 {
          NothingHeld(inp, pos + 1, f, cfg);
          FollowsCons(inp, pos, Literal(inp[pos]), Lazy(inp, pos + 1, Found(0, 0), cfg), cfg);
        }
      }
    }
  }

  /** With nothing held back, it does not matter where. */
  lemma NothingHeld(inp: seq<byte>, pos: nat, held: Found, cfg: LevelConfig)
    requires pos <= |inp| && held.len == 0 && cfg.maxChain >= 1
    ensures Lazy(inp, pos, held, cfg) == Lazy(inp, pos, Found(0, 0), cfg)
  {
    hide MatchHere;
  }

  /** Both parses, with whatever they hold back, come to this: the token at a position depends on the
      matches found there and at the next byte alone. */
  lemma TokensFollow(inp: seq<byte>, level: nat)
    requires 1 <= level <= 9
    ensures Follows(inp, 0, TokensOf(inp, level), Level(level))
  {
    hide Follows, Lazy, Greedy, Level;
    if Level(level).isLazy {
      LazyFollows(inp, 0, Found(0, 0), Level(level));
    } else {
      GreedyFollows(inp, 0, Level(level));
    }
  }

  lemma NothingSpelled(inp: seq<byte>)
    ensures Spells(inp, [], 0)
  {}

  /** The tokens chosen spell the input, at every level. */
  lemma TokensSpell(inp: seq<byte>, level: nat)
    requires 1 <= level <= 9
    ensures Spells(inp, TokensOf(inp, level), |inp|)
  {
    hide Spells, Greedy, Lazy;
    NothingSpelled(inp);
    var cfg, none, nothing: seq<Token> := Level(level), Found(0, 0), [];
    if cfg.isLazy {
      LazySpells(inp, 0, none, cfg, nothing);
      assert nothing + Lazy(inp, 0, none, cfg) == Lazy(inp, 0, none, cfg);
    } else {
      GreedySpells(inp, 0, cfg, nothing);
      assert nothing + Greedy(inp, 0, cfg) == Greedy(inp, 0, cfg);
    }
  }
}
