/** The run-length coded code lengths of a dynamic block header: `pack_code_lengths` of
    `C-Deflate/src/deflate.c` and the reading loop of `read_dynamic_header` in
    `C-Deflate/src/inflate.c`. */
module CodeLengths {
  import opened Arithmetic
  import opened DeflateTables

  /** A code-length symbol and the value of the extra bits that follow it. */
  datatype Item = Item(sym: nat, extra: nat)

  function ExtraBits(sym: nat): nat {
    if sym == 16 then 2 else if sym == 17 then 3 else if sym == 18 then 7 else 0
  }

  ghost predicate ItemOk(it: Item) {
    it.sym < NUM_CODELEN && it.extra < Pow2(ExtraBits(it.sym))
  }

  function Copies(v: nat, k: nat): (s: seq<nat>)
    ensures |s| == k
  {
    seq(k, _ => v)
  }

  /** What one item stands for, after the lengths already read. */
  function Stands(ls: seq<nat>, it: Item): seq<nat> {
    if it.sym < 16 then [it.sym]
    else if it.sym == 16 then (if ls == [] then [] else Copies(ls[|ls| - 1], 3 + it.extra))
    else if it.sym == 17 then Copies(0, 3 + it.extra)
    else Copies(0, 11 + it.extra)
  }

  function Unpack(items: seq<Item>): seq<nat> {
    if items == [] then []
    else
      var ls := Unpack(items[..|items| - 1]);
      ls + Stands(ls, items[|items| - 1])
  }

  lemma UnpackMore(items: seq<Item>, it: Item)
    ensures Unpack(items + [it]) == Unpack(items) + Stands(Unpack(items), it)
  {
    assert (items + [it])[..|items|] == items;
  }

  /** No repeat code comes first. */
  ghost predicate ItemsOk(items: seq<Item>) {
    && (forall i :: 0 <= i < |items| ==> ItemOk(items[i]))
    && (items != [] ==> items[0].sym != 16)
  }

  // ---------------------------------------------------------------- packing

  /** The items written so far unpack to the lengths consumed so far. */
  ghost predicate Packed(ls: seq<nat>, i: nat, items: seq<Item>) {
    i <= |ls| && ItemsOk(items) && Unpack(items) == ls[..i] && (items == [] <==> i == 0)
  }

  ghost predicate Constant(ls: seq<nat>, i: nat, k: nat, v: nat) {
    i + k <= |ls| && forall j :: i <= j < i + k ==> ls[j] == v
  }

  /** One item is right for the next `take` lengths. */
  lemma PackMore(ls: seq<nat>, i: nat, items: seq<Item>, it: Item, take: nat, v: nat)
    requires Packed(ls, i, items) && Constant(ls, i, take, v) && ItemOk(it) && take >= 1
    requires it.sym == 16 ==> i > 0 && ls[i - 1] == v && take == 3 + it.extra
    requires it.sym == 17 ==> v == 0 && take == 3 + it.extra
    requires it.sym == 18 ==> v == 0 && take == 11 + it.extra
    requires it.sym < 16 ==> it.sym == v && take == 1
    ensures Packed(ls, i + take, items + [it])
  {
    UnpackMore(items, it);
    StandsForRun(ls[..i], it, take, v);
    RunIsCopies(ls, i, take, v);
    hide Unpack, Stands, Copies, Constant;
  }

  lemma StandsForRun(before: seq<nat>, it: Item, take: nat, v: nat)
    requires take >= 1
    requires it.sym == 16 ==> before != [] && before[|before| - 1] == v && take == 3 + it.extra
    requires it.sym == 17 ==> v == 0 && take == 3 + it.extra
    requires it.sym == 18 ==> v == 0 && take == 11 + it.extra
    requires it.sym < 16 ==> it.sym == v && take == 1
    requires it.sym < NUM_CODELEN
    ensures Stands(before, it) == Copies(v, take)
  {}

  lemma RunIsCopies(ls: seq<nat>, i: nat, take: nat, v: nat)
    requires Constant(ls, i, take, v)
    ensures ls[..i + take] == ls[..i] + Copies(v, take)
  {}

  /** How many lengths from `i` on equal the one there, at least `k`. */
  function RunFrom(ls: seq<nat>, i: nat, k: nat): (run: nat)
    requires i < |ls| && i + k <= |ls|
    ensures k <= run && i + run <= |ls|
    decreases |ls| - i - k
  {
    if i + k < |ls| && ls[i + k] == ls[i] then RunFrom(ls, i, k + 1) else k
  }

  lemma {:induction false} RunIsConstant(ls: seq<nat>, i: nat, k: nat)
    requires i < |ls| && Constant(ls, i, k, ls[i])
    ensures Constant(ls, i, RunFrom(ls, i, k), ls[i])
    decreases |ls| - i - k
  {
    if i + k < |ls| && ls[i + k] == ls[i] { RunIsConstant(ls, i, k + 1); }
  }

  function Singles(v: nat, run: nat): (r: seq<Item>)
    ensures |r| == run
  {
    seq(run, _ => Item(v, 0))
  }

  /** A run of zeros: as many as fit into symbol 18, the rest into 17, the last few one by one. */
  function ZeroItems(run: nat): seq<Item> {
    if run >= 11 then
      var take := if run > 138 then 138 else run;
      [Item(18, take - 11)] + ZeroItems(run - take)
    else if run >= 3 then
      var take := if run > 10 then 10 else run;
      [Item(17, take - 3)] + ZeroItems(run - take)
    else Singles(0, run)
  }

  /** More of the same length: symbol 16 for up to six of them, the last few one by one. */
  function RepeatItems(v: nat, run: nat): seq<Item> {
    if run >= 3 then
      var take := if run > 6 then 6 else run;
      [Item(16, take - 3)] + RepeatItems(v, run - take)
    else Singles(v, run)
  }

  /** A run of zeros takes one item for every 138 of them, and two more at most. */
  lemma {:induction false} ZerosAreShort(run: nat)
    ensures |ZeroItems(run)| <= run / 138 + (if run % 138 == 0 then 0 else 2)
  {
    if run >= 11 {
      var take := if run > 138 then 138 else run;
      ZerosAreShort(run - take);
      if run > 138 { assert (run - 138) / 138 == run / 138 - 1 && (run - 138) % 138 == run % 138; }
    } else if run >= 3 {
      ZerosAreShort(0);
    }
  }

  /** A run of another length one for every six, and two more at most, after the first. */
  lemma {:induction false} RepeatsAreShort(v: nat, run: nat)
    ensures |RepeatItems(v, run)| <= run / 6 + (if run % 6 == 0 then 0 else 2)
  {
    if run >= 3 {
      var take := if run > 6 then 6 else run;
      RepeatsAreShort(v, run - take);
      if run > 6 { assert (run - 6) / 6 == run / 6 - 1 && (run - 6) % 6 == run % 6; }
    }
  }

  /** A repeated length is written out once before a repeat code can refer to it. */
  function RunItems(v: nat, run: nat): seq<Item>
    requires run >= 1
  {
    if v == 0 then ZeroItems(run) else [Item(v, 0)] + RepeatItems(v, run - 1)
  }

  function ItemsFrom(ls: seq<nat>, i: nat): seq<Item>
    requires i <= |ls|
    decreases |ls| - i
  {
    if i == |ls| then []
    else
      var run := RunFrom(ls, i, 1);
      RunItems(ls[i], run) + ItemsFrom(ls, i + run)
  }

  /** The items `pack_code_lengths` writes. */
  function ItemsOf(ls: seq<nat>): seq<Item> {
    ItemsFrom(ls, 0)
  }

  // ---------------------------------------------------------------- what the items unpack to

  lemma {:induction false} SinglesPack(ls: seq<nat>, i: nat, items: seq<Item>, run: nat, v: nat)
    requires Packed(ls, i, items) && Constant(ls, i, run, v) && v < 16
    ensures Packed(ls, i + run, items + Singles(v, run))
    decreases run
  {
    hide Packed, ItemOk, Pow2;
    if run == 0 {
      assert items + Singles(v, run) == items;
    } else {
      ExtraFits(Item(v, 0));
      PackMore(ls, i, items, Item(v, 0), 1, v);
      SinglesPack(ls, i + 1, items + [Item(v, 0)], run - 1, v);
      assert items + [Item(v, 0)] + Singles(v, run - 1) == items + Singles(v, run);
    }
  }

  lemma {:induction false} ZeroItemsPack(ls: seq<nat>, i: nat, items: seq<Item>, run: nat)
    requires Packed(ls, i, items) && Constant(ls, i, run, 0)
    ensures Packed(ls, i + run, items + ZeroItems(run))
    decreases run
  {
    hide Packed, ItemOk, Pow2;
    if run < 3 {
      SinglesPack(ls, i, items, run, 0);
    } else {
      var take := if run > 138 then 138 else run;
      var it := if run >= 11 then Item(18, take - 11) else Item(17, take - 3);
      ExtraFits(it);
      PackMore(ls, i, items, it, take, 0);
      ZeroItemsPack(ls, i + take, items + [it], run - take);
      assert items + [it] + ZeroItems(run - take) == items + ZeroItems(run);
    }
  }

  lemma {:induction false} RepeatItemsPack(ls: seq<nat>, i: nat, items: seq<Item>, run: nat, v: nat)
    requires Packed(ls, i, items) && Constant(ls, i, run, v) && i > 0 && ls[i - 1] == v < 16
    ensures Packed(ls, i + run, items + RepeatItems(v, run))
    decreases run
  {
    hide Packed, ItemOk, Pow2;
    if run < 3 {
      SinglesPack(ls, i, items, run, v);
    } else {
      var take := if run > 6 then 6 else run;
      var it := Item(16, take - 3);
      ExtraFits(it);
      PackMore(ls, i, items, it, take, v);
      RepeatItemsPack(ls, i + take, items + [it], run - take, v);
      assert items + [it] + RepeatItems(v, run - take) == items + RepeatItems(v, run);
    }
  }

  lemma RunItemsPack(ls: seq<nat>, i: nat, items: seq<Item>, run: nat, v: nat)
    requires Packed(ls, i, items) && Constant(ls, i, run, v) && v < 16 && run >= 1
    ensures Packed(ls, i + run, items + RunItems(v, run))
  {
    hide Packed, ItemOk, Pow2, ZeroItems, RepeatItems;
    if v == 0 {
      ZeroItemsPack(ls, i, items, run);
    } else {
      ExtraFits(Item(v, 0));
      PackMore(ls, i, items, Item(v, 0), 1, v);
      RepeatItemsPack(ls, i + 1, items + [Item(v, 0)], run - 1, v);
      assert items + [Item(v, 0)] + RepeatItems(v, run - 1) == items + RunItems(v, run);
    }
  }

  lemma {:induction false} ItemsFromPack(ls: seq<nat>, i: nat, items: seq<Item>)
    requires i <= |ls| && Packed(ls, i, items) && forall k :: 0 <= k < |ls| ==> ls[k] <= MAX_CODE_BITS
    ensures Packed(ls, |ls|, items + ItemsFrom(ls, i))
    decreases |ls| - i
  {
    hide Packed, RunItems;
    if i == |ls| {
      assert items + ItemsFrom(ls, i) == items;
    } else {
      RunIsConstant(ls, i, 1);
      var run := RunFrom(ls, i, 1);
      RunItemsPack(ls, i, items, run, ls[i]);
      ItemsFromPack(ls, i + run, items + RunItems(ls[i], run));
      assert items + RunItems(ls[i], run) + ItemsFrom(ls, i + run) == items + ItemsFrom(ls, i);
    }
  }

  /** The items unpack to the lengths they came from. */
  lemma ItemsUnpack(ls: seq<nat>)
    requires forall k :: 0 <= k < |ls| ==> ls[k] <= MAX_CODE_BITS
    ensures ItemsOk(ItemsOf(ls)) && Unpack(ItemsOf(ls)) == ls
  {
    var none: seq<Item> := [];
    assert Packed(ls, 0, none);
    ItemsFromPack(ls, 0, none);
    assert none + ItemsFrom(ls, 0) == ItemsOf(ls) && ls[..|ls|] == ls;
  }

  lemma {:induction false} RunIsAll(ls: seq<nat>, k: nat)
    requires 1 <= k <= |ls| && Constant(ls, 0, |ls|, ls[0])
    ensures RunFrom(ls, 0, k) == |ls|
    decreases |ls| - k
  {
    if k < |ls| { RunIsAll(ls, k + 1); }
  }

  /** A code of equal lengths takes a repeat code as well as the length itself. */
  lemma ConstantRepeats(ls: seq<nat>)
    requires |ls| >= 4 && ls[0] > 0 && Constant(ls, 0, |ls|, ls[0])
    ensures |ItemsOf(ls)| >= 2 && ItemsOf(ls)[1].sym == 16
  {
    RunIsAll(ls, 1);
    assert ItemsFrom(ls, 0) == RunItems(ls[0], |ls|) + [];
  }

  /** The extra fields in use fit their widths of 0, 2, 3 and 7 bits. */
  lemma ExtraFits(it: Item)
    requires it.sym < NUM_CODELEN
    requires it.extra < if it.sym == 16 then 4 else if it.sym == 17 then 8 else if it.sym == 18 then 128 else 1
    ensures ItemOk(it)
  {
    assert Pow2(0) == 1 && Pow2(2) == 4 && Pow2(3) == 8 && Pow2(7) == 128;
  }

  // ---------------------------------------------------------------- packing

  method RunLength(ls: seq<nat>, i: nat) returns (run: nat)
    requires i < |ls|
    ensures run == RunFrom(ls, i, 1)
  {
    run := 1;
    while i + run < |ls| && ls[i + run] == ls[i]
      invariant i + run <= |ls| && RunFrom(ls, i, run) == RunFrom(ls, i, 1)
    {
      run := run + 1;
    }
  }

  method PackSingly(items: seq<Item>, run: nat, v: nat) returns (items': seq<Item>)
    ensures items' == items + Singles(v, run)
  {
    var left: nat := run;
    items' := items;
    while left > 0
      invariant left <= run && items' + Singles(v, left) == items + Singles(v, run)
    {
      assert [Item(v, 0)] + Singles(v, left - 1) == Singles(v, left);
      items' := items' + [Item(v, 0)];
      left := left - 1;
    }
  }

  method PackZeros(items: seq<Item>, run: nat) returns (items': seq<Item>)
    ensures items' == items + ZeroItems(run)
  {
    var left := run;
    items' := items;
    while left >= 11
      invariant items' + ZeroItems(left) == items + ZeroItems(run)
    {
      var take := if left > 138 then 138 else left;
      items' := items' + [Item(18, take - 11)];
      left := left - take;
    }
    while left >= 3
      invariant left < 11 && items' + ZeroItems(left) == items + ZeroItems(run)
    {
      var take := if left > 10 then 10 else left;
      items' := items' + [Item(17, take - 3)];
      left := left - take;
    }
    items' := PackSingly(items', left, 0);
  }

  method PackRun(items: seq<Item>, run: nat, v: nat) returns (items': seq<Item>)
    requires run >= 1 && v > 0
    ensures items' == items + RunItems(v, run)
  {
    var left: nat := run - 1;
    items' := items + [Item(v, 0)];
    while left >= 3
      invariant items' + RepeatItems(v, left) == items + RunItems(v, run)
    {
      var take := if left > 6 then 6 else left;
      items' := items' + [Item(16, take - 3)];
      left := left - take;
    }
    items' := PackSingly(items', left, v);
  }

  lemma ItemsStep(ls: seq<nat>, i: nat, before: seq<Item>)
    requires i < |ls|
    ensures var run := RunFrom(ls, i, 1);
      i + run <= |ls| && before + ItemsFrom(ls, i) == before + RunItems(ls[i], run) + ItemsFrom(ls, i + run)
  {
    hide RunItems;
  }

  /** `pack_code_lengths`: the items unpack to exactly the lengths. */
  method Pack(ls: seq<nat>) returns (items: seq<Item>)
    requires forall i :: 0 <= i < |ls| ==> ls[i] <= MAX_CODE_BITS
    ensures items == ItemsOf(ls)
    ensures ItemsOk(items) && Unpack(items) == ls
  {
    hide ZeroItems, RepeatItems, Unpack, ItemsOk, ItemsFrom;
    items := [];
    var i := 0;
    assert items + ItemsFrom(ls, 0) == ItemsOf(ls);
    while i < |ls|
      invariant i <= |ls| && items + ItemsFrom(ls, i) == ItemsOf(ls)
    {
      ItemsStep(ls, i, items);
      var run := RunLength(ls, i);
      if ls[i] == 0 {
        items := PackZeros(items, run);
      } else {
        items := PackRun(items, run, ls[i]);
      }
      i := i + run;
    }
    NothingLeft(ls, items);
    ItemsUnpack(ls);
  }

  lemma NothingLeft(ls: seq<nat>, items: seq<Item>)
    ensures items + ItemsFrom(ls, |ls|) == items
  {}
}
