/** The segregated free lists of `C-Allocator/src/balloc.c`: doubly linked through the first two
    words of each node, in a memory of words.  Addresses count words; 0 is the null pointer. */
module AllocLists {
  type Memory = map<int, int>

  const NCLASS := 16

  function At(l: seq<int>, i: int): int {
    if 0 <= i < |l| then l[i] else 0
  }

  /** Node `n` points to `next` and back to `prev`. */
  ghost predicate Linked(mem: Memory, n: int, next: int, prev: int) {
    n in mem && n + 1 in mem && mem[n] == next && mem[n + 1] == prev
  }

  /** The list that starts at `head` is `l`, in both directions. */
  ghost predicate ListOk(mem: Memory, head: int, l: seq<int>) {
    && head == At(l, 0)
    && forall i :: 0 <= i < |l| ==> Linked(mem, l[i], At(l, i + 1), At(l, i - 1))
  }

  /** Nodes are two words each, at even addresses, and no node is on two lists or twice on one. */
  ghost predicate Apart(lists: seq<seq<int>>) {
    && (forall c, i :: 0 <= c < |lists| && 0 <= i < |lists[c]| ==> lists[c][i] > 0 && lists[c][i] % 2 == 0)
    && (forall c, i, d, j :: 0 <= c < |lists| && 0 <= i < |lists[c]| && 0 <= d < |lists| && 0 <= j < |lists[d]| ==>
          lists[c][i] == lists[d][j] ==> c == d && i == j)
  }

  ghost predicate ListsOk(mem: Memory, heads: seq<int>, lists: seq<seq<int>>) {
    && |heads| == NCLASS && |lists| == NCLASS && Apart(lists)
    && forall c :: 0 <= c < NCLASS ==> ListOk(mem, heads[c], lists[c])
  }

  ghost predicate Listed(lists: seq<seq<int>>, n: int) {
    exists c :: 0 <= c < |lists| && n in lists[c]
  }

  /** Words that belong to no node can change freely. */
  lemma ListsElsewhere(mem: Memory, mem': Memory, heads: seq<int>, lists: seq<seq<int>>)
    requires ListsOk(mem, heads, lists)
    requires forall c, i :: 0 <= c < |lists| && 0 <= i < |lists[c]| ==>
      lists[c][i] in mem' && lists[c][i] + 1 in mem' &&
      mem'[lists[c][i]] == mem[lists[c][i]] && mem'[lists[c][i] + 1] == mem[lists[c][i] + 1]
    ensures ListsOk(mem', heads, lists)
  {
    forall c | 0 <= c < NCLASS ensures ListOk(mem', heads[c], lists[c]) {
      forall i | 0 <= i < |lists[c]| ensures Linked(mem', lists[c][i], At(lists[c], i + 1), At(lists[c], i - 1)) {
        assert Linked(mem, lists[c][i], At(lists[c], i + 1), At(lists[c], i - 1));
      }
    }
  }

  lemma LinkedAt(mem: Memory, head: int, l: seq<int>, i: nat)
    requires ListOk(mem, head, l) && i < |l|
    ensures Linked(mem, l[i], At(l, i + 1), At(l, i - 1))
  {}

  /** One list on its own: positive even addresses, all different. */
  ghost predicate Spread(l: seq<int>) {
    && (forall i :: 0 <= i < |l| ==> l[i] > 0 && l[i] % 2 == 0)
    && (forall i, j :: 0 <= i < j < |l| ==> l[i] != l[j])
  }

  lemma ApartSpread(lists: seq<seq<int>>, c: nat)
    requires Apart(lists) && c < |lists|
    ensures Spread(lists[c])
  {
    forall i, j | 0 <= i < j < |lists[c]| ensures lists[c][i] != lists[c][j] {}
  }

  lemma EvenApart(a: int, b: int)
    requires a % 2 == 0 && b % 2 == 0
    ensures a != b + 1
  {}

  // ---------------------------------------------------------------- insertion at the front

  /** The memory after `list_insert`. */
  function InsertedMem(mem: Memory, head: int, n: int): Memory {
    var m := mem[n + 1 := 0][n := head];
    if head != 0 then m[head + 1 := n] else m
  }

  /** What insertion leaves at the even address `x`. */
  lemma InsertedAt(mem: Memory, head: int, n: int, x: int)
    requires n % 2 == 0 && head % 2 == 0 && x % 2 == 0 && (x == n || (x in mem && x + 1 in mem))
    ensures Linked(InsertedMem(mem, head, n), x, if x == n then head else mem[x],
                   if x == head && x != 0 then n else if x == n then 0 else mem[x + 1])
  {
    EvenApart(x, n);
    EvenApart(n, x);
    EvenApart(x, head);
  }

  lemma FrontLinked(mem: Memory, head: int, l: seq<int>, n: int, i: nat)
    requires ListOk(mem, head, l) && n > 0 && n % 2 == 0 && n !in l && Spread(l) && i <= |l|
    ensures var l' := [n] + l; Linked(InsertedMem(mem, head, n), l'[i], At(l', i + 1), At(l', i - 1))
  {
    hide InsertedMem, Spread, At;
    Shifted(n, l, i);
    SpreadFrom(l);
    hide ListOk;
    if i == 0 {
      InsertedAt(mem, head, n, n);
    } else {
      LinkedAt(mem, head, l, i - 1);
      InsertedAt(mem, head, n, l[i - 1]);
    }
  }

  /** The entries of a list with one more in front. */
  lemma Shifted(n: int, l: seq<int>, i: nat)
    requires i <= |l|
    ensures ([n] + l)[i] == if i == 0 then n else l[i - 1]
    ensures At([n] + l, i + 1) == At(l, i)
    ensures At([n] + l, i - 1) == if i == 0 then 0 else if i == 1 then n else At(l, i - 2)
  {}

  lemma SpreadFrom(l: seq<int>)
    requires Spread(l)
    ensures At(l, 0) % 2 == 0 && (At(l, 0) == 0 || At(l, 0) in l)
    ensures forall i :: 0 <= i < |l| ==> l[i] % 2 == 0 && l[i] != 0 && (l[i] == At(l, 0) <==> i == 0)
  {}

  lemma FrontInserted(mem: Memory, head: int, l: seq<int>, n: int)
    requires ListOk(mem, head, l) && n > 0 && n % 2 == 0 && n !in l && Spread(l)
    ensures ListOk(InsertedMem(mem, head, n), n, [n] + l)
  {
    hide InsertedMem, Linked, At, Spread;
    var l' := [n] + l;
    forall i | 0 <= i < |l'| ensures Linked(InsertedMem(mem, head, n), l'[i], At(l', i + 1), At(l', i - 1)) {
      FrontLinked(mem, head, l, n, i);
    }
    assert n == At(l', 0) by { AtFirst(l'); }
  }

  lemma AtFirst(l: seq<int>)
    ensures At(l, 0) == if l == [] then 0 else l[0]
  {}

  lemma InsertKeeps(mem: Memory, heads: seq<int>, lists: seq<seq<int>>, n: int, c: nat)
    requires ListsOk(mem, heads, lists) && c < NCLASS && n > 0 && n % 2 == 0 && !Listed(lists, n)
    ensures ListsOk(InsertedMem(mem, heads[c], n), heads[c := n], lists[c := [n] + lists[c]])
  {
    var m := InsertedMem(mem, heads[c], n);
    InsertApart(lists, n, c);
    ApartSpread(lists, c);
    assert ListOk(mem, heads[c], lists[c]);
    assert n !in lists[c];
    FrontInserted(mem, heads[c], lists[c], n);
    forall d | 0 <= d < NCLASS && d != c ensures ListOk(m, heads[d], lists[d]) {
      OtherListKept(mem, heads, lists, n, c, d);
    }
    hide ListOk, InsertedMem, Apart, Spread;
  }

  lemma OtherListKept(mem: Memory, heads: seq<int>, lists: seq<seq<int>>, n: int, c: nat, d: nat)
    requires ListsOk(mem, heads, lists) && c < NCLASS && d < NCLASS && d != c && n % 2 == 0 && !Listed(lists, n)
    ensures ListOk(InsertedMem(mem, heads[c], n), heads[d], lists[d])
  {
    var l, m := lists[d], InsertedMem(mem, heads[c], n);
    assert ListOk(mem, heads[d], l);
    HeadApart(mem, heads, lists, c, d);
    assert n !in l;
    forall i | 0 <= i < |l| ensures Linked(m, l[i], At(l, i + 1), At(l, i - 1)) {
      LinkedAt(mem, heads[d], l, i);
      assert l[i] in l;
      hide ListOk, ListsOk, Apart, At, InsertedMem;
      InsertedAt(mem, heads[c], n, l[i]);
    }
  }

  /** The head of one list is not on another. */
  lemma HeadApart(mem: Memory, heads: seq<int>, lists: seq<seq<int>>, c: nat, d: nat)
    requires ListsOk(mem, heads, lists) && c < NCLASS && d < NCLASS && d != c
    ensures heads[c] % 2 == 0
    ensures forall i :: 0 <= i < |lists[d]| ==> lists[d][i] != heads[c] && lists[d][i] > 0 && lists[d][i] % 2 == 0
  {
    assert ListOk(mem, heads[c], lists[c]);
    AtFirst(lists[c]);
    hide ListOk;
  }

  lemma InsertApart(lists: seq<seq<int>>, n: int, c: nat)
    requires Apart(lists) && c < |lists| && n > 0 && n % 2 == 0 && !Listed(lists, n)
    ensures Apart(lists[c := [n] + lists[c]])
  {
    var l' := lists[c := [n] + lists[c]];
    forall d, i | 0 <= d < |l'| && 0 <= i < |l'[d]|
      ensures l'[d][i] == if d == c && i == 0 then n else if d == c then lists[d][i - 1] else lists[d][i]
    {}
    assert forall d, i :: 0 <= d < |lists| && 0 <= i < |lists[d]| ==> lists[d][i] in lists[d] && lists[d][i] != n;
  }

  // ---------------------------------------------------------------- removal anywhere

  /** The memory after `list_remove`. */
  function RemovedMem(mem: Memory, n: int): Memory
    requires n in mem && n + 1 in mem
  {
    var next, prev := mem[n], mem[n + 1];
    var m := if prev != 0 then mem[prev := next] else mem;
    if next != 0 then m[next + 1 := prev] else m
  }

  function Cut(l: seq<int>, i: nat): seq<int>
    requires i < |l|
  {
    l[..i] + l[i + 1..]
  }

  /** What removal leaves at the even address `x`. */
  lemma RemovedAt(mem: Memory, n: int, next: int, prev: int, x: int)
    requires Linked(mem, n, next, prev) && next % 2 == 0 && prev % 2 == 0
    requires x % 2 == 0 && x != 0 && x in mem && x + 1 in mem
    ensures Linked(RemovedMem(mem, n), x, if x == prev then next else mem[x], if x == next then prev else mem[x + 1])
  {
    EvenApart(x, next);
    EvenApart(prev, x);
  }

  lemma AtEven(l: seq<int>, i: int)
    requires Spread(l)
    ensures At(l, i) % 2 == 0
  {}

  lemma CutLinked(mem: Memory, head: int, l: seq<int>, i: nat, k: nat)
    requires ListOk(mem, head, l) && Spread(l) && i < |l| && k < |l| - 1
    requires Linked(mem, l[i], At(l, i + 1), At(l, i - 1))
    ensures Linked(RemovedMem(mem, l[i]), Cut(l, i)[k], At(Cut(l, i), k + 1), At(Cut(l, i), k - 1))
  {
    hide ListOk, Spread, RemovedMem, At, Cut;
    var o := if k < i then k else k + 1;
    CutIs(l, i, k);
    LinkedAt(mem, head, l, o);
    AtEven(l, i + 1);
    AtEven(l, i - 1);
    SpreadAt(l, o, i + 1);
    SpreadAt(l, o, i - 1);
    RemovedAt(mem, l[i], At(l, i + 1), At(l, i - 1), l[o]);
  }

  /** Which place holds an address. */
  lemma SpreadAt(l: seq<int>, o: nat, i: int)
    requires Spread(l) && o < |l|
    ensures l[o] % 2 == 0 && l[o] != 0 && (l[o] == At(l, i) <==> o == i)
  {}

  lemma CutIs(l: seq<int>, i: nat, k: nat)
    requires i < |l| && k < |l| - 1
    ensures |Cut(l, i)| == |l| - 1 && Cut(l, i)[k] == if k < i then l[k] else l[k + 1]
    ensures At(Cut(l, i), k + 1) == if k + 1 < i then At(l, k + 1) else At(l, k + 2)
    ensures At(Cut(l, i), k - 1) == if k <= i then At(l, k - 1) else At(l, k)
  {}

  lemma RemovedHere(mem: Memory, head: int, l: seq<int>, i: nat)
    requires ListOk(mem, head, l) && i < |l| && Spread(l)
    ensures l[i] in mem && l[i] + 1 in mem
    ensures ListOk(RemovedMem(mem, l[i]), if i == 0 then mem[l[i]] else head, Cut(l, i))
  {
    LinkedAt(mem, head, l, i);
    forall k | 0 <= k < |Cut(l, i)|
      ensures Linked(RemovedMem(mem, l[i]), Cut(l, i)[k], At(Cut(l, i), k + 1), At(Cut(l, i), k - 1))
    {
      CutLinked(mem, head, l, i, k);
    }
    CutFirst(l, i);
    hide RemovedMem, Cut, At, Spread;
  }

  lemma CutFirst(l: seq<int>, i: nat)
    requires i < |l|
    ensures At(Cut(l, i), 0) == if i == 0 then At(l, 1) else At(l, 0)
  {}

  lemma RemoveKeeps(mem: Memory, heads: seq<int>, lists: seq<seq<int>>, c: nat, i: nat)
    requires ListsOk(mem, heads, lists) && c < NCLASS && i < |lists[c]|
    ensures var n := lists[c][i];
      && n in mem && n + 1 in mem && Linked(mem, n, At(lists[c], i + 1), At(lists[c], i - 1))
      && ListsOk(RemovedMem(mem, n), heads[c := if mem[n + 1] == 0 then mem[n] else heads[c]],
        lists[c := Cut(lists[c], i)])
  {
    hide ListOk, RemovedMem, Cut, At, Apart, Spread;
    var n, l := lists[c][i], lists[c];
    LinkedAt(mem, heads[c], l, i);
    ApartSpread(lists, c);
    RemovedHere(mem, heads[c], l, i);
    CutApart(lists, c, i);
    AtZero(l, i);
    OthersUncut(mem, heads, lists, c, i, n);
  }

  lemma OthersUncut(mem: Memory, heads: seq<int>, lists: seq<seq<int>>, c: nat, i: nat, n: int)
    requires ListsOk(mem, heads, lists) && c < NCLASS && i < |lists[c]| && n == lists[c][i]
    ensures n in mem && n + 1 in mem
    ensures forall d :: 0 <= d < NCLASS && d != c ==> ListOk(RemovedMem(mem, n), heads[d], lists[d])
  {
    hide ListOk, RemovedMem, At, Apart, Spread;
    var l := lists[c];
    LinkedAt(mem, heads[c], l, i);
    ApartSpread(lists, c);
    AtEven(l, i + 1);
    AtEven(l, i - 1);
    forall d | 0 <= d < NCLASS && d != c ensures ListOk(RemovedMem(mem, n), heads[d], lists[d]) {
      ApartSpread(lists, d);
      forall k | 0 <= k < |lists[d]| ensures lists[d][k] != At(l, i + 1) && lists[d][k] != At(l, i - 1) {
        NeighbourApart(lists, c, i + 1, d, k);
        NeighbourApart(lists, c, i - 1, d, k);
      }
      OtherListUncut(mem, heads[d], lists[d], n, At(l, i + 1), At(l, i - 1));
    }
  }

  /** Only the first node has no predecessor. */
  lemma AtZero(l: seq<int>, i: nat)
    requires Spread(l) && i < |l|
    ensures At(l, i - 1) == 0 <==> i == 0
  {}

  lemma OtherListUncut(mem: Memory, head: int, l: seq<int>, n: int, next: int, prev: int)
    requires ListOk(mem, head, l) && Spread(l) && Linked(mem, n, next, prev) && next % 2 == 0 && prev % 2 == 0
    requires forall k :: 0 <= k < |l| ==> l[k] != next && l[k] != prev
    ensures ListOk(RemovedMem(mem, n), head, l)
  {
    hide RemovedMem, At;
    forall k | 0 <= k < |l| ensures Linked(RemovedMem(mem, n), l[k], At(l, k + 1), At(l, k - 1)) {
      LinkedAt(mem, head, l, k);
      RemovedAt(mem, n, next, prev, l[k]);
    }
  }

  lemma NeighbourApart(lists: seq<seq<int>>, c: nat, i: int, d: nat, k: nat)
    requires Apart(lists) && c < |lists| && d < |lists| && d != c && k < |lists[d]|
    ensures lists[d][k] > 0 && lists[d][k] % 2 == 0 && lists[d][k] != At(lists[c], i)
  {}

  /** What a list without its entry `i` holds, and where. */
  lemma CutMembers(l: seq<int>, i: nat)
    requires i < |l|
    ensures |Cut(l, i)| == |l| - 1
    ensures forall k :: 0 <= k < |l| - 1 ==> Cut(l, i)[k] == if k >= i then l[k + 1] else l[k]
    ensures forall n :: n in l && n != l[i] ==> n in Cut(l, i)
    ensures (forall k :: 0 <= k < |l| && k != i ==> l[k] != l[i]) ==> l[i] !in Cut(l, i)
    ensures forall n :: n in Cut(l, i) ==> n in l
  {
    forall n | n in l && n != l[i] ensures n in Cut(l, i) {
      var k :| 0 <= k < |l| && l[k] == n;
      assert Cut(l, i)[if k > i then k - 1 else k] == n;
    }
  }

  lemma CutApart(lists: seq<seq<int>>, c: nat, i: nat)
    requires Apart(lists) && c < |lists| && i < |lists[c]|
    ensures Apart(lists[c := Cut(lists[c], i)])
    ensures forall d :: 0 <= d < |lists| ==> forall n :: n in lists[c := Cut(lists[c], i)][d] <==>
      n in lists[d] && n != lists[c][i]
  {
    CutMembers(lists[c], i);
    hide Cut;
    var l' := lists[c := Cut(lists[c], i)];
    assert forall d, k :: 0 <= d < |l'| && 0 <= k < |l'[d]| ==>
      l'[d][k] == lists[d][if d == c && k >= i then k + 1 else k];
    hide Apart;
    ApartWithin(lists, l', c, i);
    StillMembers(lists, c, i);
  }

  /** A list without one entry holds no other. */
  lemma StillMembers(lists: seq<seq<int>>, c: nat, i: nat)
    requires Apart(lists) && c < |lists| && i < |lists[c]|
    ensures forall d :: 0 <= d < |lists| ==> forall n :: n in lists[c := Cut(lists[c], i)][d] <==>
      n in lists[d] && n != lists[c][i]
  {
    CutMembers(lists[c], i);
    hide Cut;
    forall d, n | 0 <= d < |lists| && n in lists[d] && n == lists[c][i] ensures d == c {
      var k :| 0 <= k < |lists[d]| && lists[d][k] == n;
    }
  }

  lemma ApartWithin(lists: seq<seq<int>>, l': seq<seq<int>>, c: nat, i: nat)
    requires Apart(lists) && c < |lists| == |l'| && i < |lists[c]| && |l'[c]| == |lists[c]| - 1
    requires forall d :: 0 <= d < |lists| && d != c ==> |l'[d]| == |lists[d]|
    requires forall d, k :: 0 <= d < |l'| && 0 <= k < |l'[d]| ==>
      l'[d][k] == lists[d][if d == c && k >= i then k + 1 else k]
    ensures Apart(l')
  {}
}
