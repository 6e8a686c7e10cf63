/** Why repeatedly merging the two lightest items is optimal: the exchange argument, on bare
    sequences of weights. */
module HuffmanOptimality {
  import opened Arithmetic

  function Sum(s: seq<int>): int {
    if s == [] then 0 else Sum(s[..|s| - 1]) + s[|s| - 1]
  }

  /** Swap removal: the last item takes the place of the one removed. */
  function RemoveAt<T>(s: seq<T>, p: nat): (r: seq<T>)
    requires p < |s|
    ensures |r| == |s| - 1
    ensures forall i :: 0 <= i < |r| ==> r[i] == if i == p then s[|s| - 1] else s[i]
  {
    s[p := s[|s| - 1]][..|s| - 1]
  }

  lemma {:induction false} SumUpdate(s: seq<int>, p: nat, x: int)
    requires p < |s|
    ensures Sum(s[p := x]) == Sum(s) - s[p] + x
  {
    var n := |s| - 1;
    if p == n {
      assert s[p := x][..n] == s[..n];
    } else {
      assert s[p := x][..n] == s[..n][p := x];
      SumUpdate(s[..n], p, x);
    }
  }

  lemma SumRemove(s: seq<int>, p: nat)
    requires p < |s|
    ensures Sum(RemoveAt(s, p)) == Sum(s) - s[p]
  {
    var n := |s| - 1;
    var s' := s[p := s[n]];
    SumUpdate(s, p, s[n]);
    assert Sum(s') == Sum(s'[..n]) + s'[n];
  }

  lemma SumAppend(s: seq<int>, x: int)
    ensures Sum(s + [x]) == Sum(s) + x
  {
    assert (s + [x])[..|s|] == s;
  }

  // ---------------------------------------------------------------- cost and Kraft's sum

  function Products(ws: seq<nat>, ls: seq<nat>): (r: seq<int>)
    requires |ws| == |ls|
    ensures |r| == |ws| && forall i :: 0 <= i < |r| ==> r[i] == ws[i] * ls[i]
  {
    seq(|ws|, i requires 0 <= i < |ws| => ws[i] * ls[i])
  }

  /** Total weight times length. */
  function Cost(ws: seq<nat>, ls: seq<nat>): int
    requires |ws| == |ls|
  {
    Sum(Products(ws, ls))
  }

  ghost predicate Bounded(ls: seq<nat>, top: nat) {
    forall i :: 0 <= i < |ls| ==> ls[i] <= top
  }

  function Shares(ls: seq<nat>, top: nat): (r: seq<int>)
    requires Bounded(ls, top)
    ensures |r| == |ls| && forall i :: 0 <= i < |r| ==> r[i] == Pow2(top - ls[i])
  {
    seq(|ls|, i requires 0 <= i < |ls| => Pow2(top - ls[i]))
  }

  /** Kraft's sum, scaled by two to the power `top`. */
  function Kraft(ls: seq<nat>, top: nat): int
    requires Bounded(ls, top)
  {
    Sum(Shares(ls, top))
  }

  lemma CostRemove(ws: seq<nat>, ls: seq<nat>, p: nat)
    requires |ws| == |ls| && p < |ws|
    ensures Cost(RemoveAt(ws, p), RemoveAt(ls, p)) == Cost(ws, ls) - ws[p] * ls[p]
  {
    SumRemove(Products(ws, ls), p);
    assert Products(RemoveAt(ws, p), RemoveAt(ls, p)) == RemoveAt(Products(ws, ls), p);
  }

  lemma KraftRemove(ls: seq<nat>, top: nat, p: nat)
    requires Bounded(ls, top) && p < |ls|
    ensures Bounded(RemoveAt(ls, p), top)
    ensures Kraft(RemoveAt(ls, p), top) == Kraft(ls, top) - Pow2(top - ls[p])
  {
    SumRemove(Shares(ls, top), p);
    assert Shares(RemoveAt(ls, p), top) == RemoveAt(Shares(ls, top), p);
  }

  lemma CostAppend(ws: seq<nat>, ls: seq<nat>, w: nat, l: nat)
    requires |ws| == |ls|
    ensures Cost(ws + [w], ls + [l]) == Cost(ws, ls) + w * l
  {
    SumAppend(Products(ws, ls), w * l);
    assert Products(ws + [w], ls + [l]) == Products(ws, ls) + [w * l];
  }

  lemma KraftAppend(ls: seq<nat>, top: nat, l: nat)
    requires Bounded(ls, top) && l <= top
    ensures Bounded(ls + [l], top) && Kraft(ls + [l], top) == Kraft(ls, top) + Pow2(top - l)
  {
    SumAppend(Shares(ls, top), Pow2(top - l));
    assert Shares(ls + [l], top) == Shares(ls, top) + [Pow2(top - l)];
  }

  /** Kraft's sum at a coarser scale divides the one at a finer scale exactly. */
  lemma {:induction false} KraftRescale(ls: seq<nat>, m: nat, top: nat)
    requires Bounded(ls, m) && m <= top
    ensures Bounded(ls, top) && Kraft(ls, top) == Pow2(top - m) * Kraft(ls, m)
  {
    if ls == [] {
      KraftOfNone(m);
      KraftOfNone(top);
    } else {
      hide Kraft, Pow2;
      var n := |ls| - 1;
      KraftRescale(ls[..n], m, top);
      KraftLast(ls, m);
      KraftLast(ls, top);
      Pow2Adds(top - m, m - ls[n]);
      Distribute(Pow2(top - m), Kraft(ls[..n], m), Pow2(m - ls[n]));
    }
  }

  lemma KraftOfNone(top: nat)
    ensures Kraft([], top) == 0
  {
    assert Shares([], top) == [];
  }

  lemma KraftLast(ls: seq<nat>, top: nat)
    requires Bounded(ls, top) && ls != []
    ensures var n := |ls| - 1;
      Kraft(ls, top) == Kraft(ls[..n], top) + Pow2(top - ls[n])
  {
    var n := |ls| - 1;
    KraftAppend(ls[..n], top, ls[n]);
    assert ls[..n] + [ls[n]] == ls;
  }

  lemma Distribute(a: int, b: int, c: int)
    ensures a * (b + c) == a * b + a * c
  {}

  lemma {:induction false} KraftNonNegative(ls: seq<nat>, top: nat)
    requires Bounded(ls, top)
    ensures Kraft(ls, top) >= 0
  {
    if ls != [] {
      var n := |ls| - 1;
      KraftNonNegative(ls[..n], top);
      KraftAppend(ls[..n], top, ls[n]);
      assert ls[..n] + [ls[n]] == ls;
    }
  }

  // ---------------------------------------------------------------- the greedy merge

  /** The first index holding a least weight: the scan in the selection loop. */
  function ArgMin(ws: seq<nat>): (a: nat)
    requires ws != []
    ensures a < |ws|
    ensures forall i :: 0 <= i < |ws| ==> ws[a] <= ws[i]
    ensures forall i :: 0 <= i < a ==> ws[a] < ws[i]
  {
    var n := |ws| - 1;
    if n == 0 then 0
    else
      var a := ArgMin(ws[..n]);
      if ws[n] < ws[a] then n else a
  }

  lemma ArgMinUnique(ws: seq<nat>, a: nat)
    requires a < |ws|
    requires forall i :: 0 <= i < |ws| ==> ws[a] <= ws[i]
    requires forall i :: 0 <= i < a ==> ws[a] < ws[i]
    ensures ArgMin(ws) == a
  {}

  function Merged(ws: seq<nat>): (r: seq<nat>)
    requires |ws| >= 2
    ensures |r| == |ws| - 1
  {
    var a := ArgMin(ws);
    var ws1 := RemoveAt(ws, a);
    var b := ArgMin(ws1);
    RemoveAt(ws1, b) + [ws[a] + ws1[b]]
  }

  /** The weight of the item one merge creates. */
  function MergeWeight(ws: seq<nat>): nat
    requires |ws| >= 2
  {
    Merged(ws)[|ws| - 2]
  }

  /** The total weight of every item the merges create: the cost of the code they build. */
  function GreedyCost(ws: seq<nat>): nat
    decreases |ws|
  {
    if |ws| <= 1 then 0 else MergeWeight(ws) + GreedyCost(Merged(ws))
  }

  // ---------------------------------------------------------------- the exchange argument

  function ArgMax(ls: seq<nat>): (a: nat)
    requires ls != []
    ensures a < |ls| && forall i :: 0 <= i < |ls| ==> ls[i] <= ls[a]
  {
    var n := |ls| - 1;
    if n == 0 then 0
    else
      var a := ArgMax(ls[..n]);
      if ls[n] > ls[a] then n else a
  }

  function Swap(s: seq<nat>, p: nat, q: nat): seq<nat>
    requires p < |s| && q < |s|
  {
    s[p := s[q]][q := s[p]]
  }

  /** Giving a lightest item the longest code never costs more. */
  lemma SwapCost(ws: seq<nat>, ls: seq<nat>, p: nat, q: nat)
    requires |ws| == |ls| && p < |ws| && q < |ws| && ws[p] <= ws[q] && ls[p] <= ls[q]
    ensures Cost(ws, Swap(ls, p, q)) <= Cost(ws, ls)
  {
    var s := Products(ws, ls);
    var s' := s[p := ws[p] * ls[q]];
    SumUpdate(s, p, ws[p] * ls[q]);
    if p != q {
      SumUpdate(s', q, ws[q] * ls[p]);
      assert Products(ws, Swap(ls, p, q)) == s'[q := ws[q] * ls[p]];
      Rearrangement(ws[p], ws[q], ls[p], ls[q]);
    } else {
      assert Swap(ls, p, q) == ls;
    }
  }

  lemma Rearrangement(a: int, b: int, x: int, y: int)
    requires a <= b && x <= y
    ensures a * y + b * x <= a * x + b * y
  {
    assert (b - a) * (y - x) >= 0;
  }

  lemma SwapKraft(ls: seq<nat>, top: nat, p: nat, q: nat)
    requires Bounded(ls, top) && p < |ls| && q < |ls|
    ensures Bounded(Swap(ls, p, q), top) && Kraft(Swap(ls, p, q), top) == Kraft(ls, top)
  {
    hide Pow2, Sum;
    var s := Shares(ls, top);
    var s' := s[p := s[q]];
    SumUpdate(s, p, s[q]);
    SumUpdate(s', q, s[p]);
    assert Shares(Swap(ls, p, q), top) == s'[q := s[p]];
  }

  /** Takes a lightest item out of the problem with the longest length there is. */
  lemma TakeLightest(ws: seq<nat>, ls: seq<nat>, top: nat) returns (ls': seq<nat>, m: nat)
    requires |ws| == |ls| >= 1 && Bounded(ls, top)
    ensures var a := ArgMin(ws); var ws' := RemoveAt(ws, a);
      && |ls'| == |ws'| && m <= top && Bounded(ls', m) && (exists q :: 0 <= q < |ls| && ls[q] == m)
      && Bounded(ls', top)
      && Cost(ws, ls) >= ws[a] * m + Cost(ws', ls')
      && Kraft(ls, top) == Pow2(top - m) + Kraft(ls', top)
  {
    hide Cost, Kraft, Pow2;
    var a, q := ArgMin(ws), ArgMax(ls);
    var sw := Swap(ls, a, q);
    m := ls[q];
    SwapCost(ws, ls, a, q);
    SwapKraft(ls, top, a, q);
    ls' := RemoveAt(sw, a);
    CostRemove(ws, sw, a);
    KraftRemove(sw, top, a);
  }

  /** With every length at most `m`, and room left over once one more item of length `m` is in,
      there is room for a second: Kraft's sum moves in steps of that size. */
  lemma RoomForTwo(ls: seq<nat>, m: nat, top: nat)
    requires Bounded(ls, m) && m <= top && Bounded(ls, top)
    requires Pow2(top - m) + Kraft(ls, top) < Pow2(top)
    ensures m >= 1
    ensures Kraft(ls, top) + Pow2(top - (m - 1)) <= Pow2(top)
  {
    hide Kraft;
    KraftRescale(ls, m, top);
    KraftNonNegative(ls, top);
    Pow2Adds(top - m, m);
    ScaledGap(Pow2(top - m), Kraft(ls, m), Pow2(m));
    assert m >= 1;
    assert Pow2(top - (m - 1)) == 2 * Pow2(top - m);
  }

  lemma ScaledGap(d: int, k: int, n: int)
    requires d >= 1 && d + d * k < d * n
    ensures d * k + 2 * d <= d * n
  {
    Distribute(d, k, 1);
    if n < k + 2 { MulAtLeastProduct(d, n, k + 1); }
    MulAtLeastProduct(d, k + 2, n);
    Distribute(d, k, 2);
  }

  /** One merge loses nothing: any prefix code for the weights yields one for the merged weights
      that is cheaper by the merged item's weight. */
  lemma MergeKeepsOptimum(ws: seq<nat>, ls: seq<nat>, top: nat) returns (ls': seq<nat>)
    requires |ws| == |ls| >= 2 && Bounded(ls, top) && Kraft(ls, top) <= Pow2(top)
    ensures |ls'| == |ws| - 1 && Bounded(ls', top) && Kraft(ls', top) <= Pow2(top)
    ensures Cost(ws, ls) >= Cost(Merged(ws), ls') + MergeWeight(ws)
  {
    hide Cost, Kraft, Pow2, ArgMin;
    var a := ArgMin(ws);
    var ws1 := RemoveAt(ws, a);
    var ls1, m1 := TakeLightest(ws, ls, top);
    var b := ArgMin(ws1);
    var ws2 := RemoveAt(ws1, b);
    var ls2, m2 := TakeLightest(ws1, ls1, top);
    assert m2 <= m1;
    RoomForTwo(ls2, m2, top);
    ls' := ls2 + [m2 - 1];
    KraftAppend(ls2, top, m2 - 1);
    CostAppend(ws2, ls2, ws[a] + ws1[b], m2 - 1);
    MergedLengths(ws[a], ws1[b], m1, m2);
  }

  lemma MergedLengths(x: nat, y: nat, m1: nat, m2: nat)
    requires 1 <= m2 <= m1
    ensures x * m1 + y * m2 >= (x + y) * (m2 - 1) + (x + y)
  {
    MulAtLeastProduct(x, m2, m1);
    Distribute(m2, x, y);
    Distribute(x + y, m2 - 1, 1);
  }

  /** Huffman's theorem: no lengths satisfying Kraft's inequality cost less than the merges do. */
  lemma {:induction false} GreedyIsOptimal(ws: seq<nat>, ls: seq<nat>, top: nat)
    requires |ws| == |ls| >= 1 && Bounded(ls, top) && Kraft(ls, top) <= Pow2(top)
    ensures Cost(ws, ls) >= GreedyCost(ws)
    decreases |ws|
  {
    if |ws| == 1 {
      CostNonNegative(ws, ls);
    } else {
      var ls' := MergeKeepsOptimum(ws, ls, top);
      GreedyIsOptimal(Merged(ws), ls', top);
    }
  }

  lemma {:induction false} CostNonNegative(ws: seq<nat>, ls: seq<nat>)
    requires |ws| == |ls|
    ensures Cost(ws, ls) >= 0
  {
    if ws != [] {
      var n := |ws| - 1;
      CostNonNegative(ws[..n], ls[..n]);
      CostAppend(ws[..n], ls[..n], ws[n], ls[n]);
      assert ws[..n] + [ws[n]] == ws && ls[..n] + [ls[n]] == ls;
    }
  }
}
