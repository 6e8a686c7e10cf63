/** The tables of `Java-LSM` as finite maps of values and tombstones, newer ones over older ones. */
module LsmTables {
  import opened LsmBytes
  import opened Options

  datatype Cell = Tombstone | Value(value: Bytes)

  datatype Entry = Entry(key: int, cell: Cell)

  type Table = map<int, Cell>

  ghost predicate Ascending(es: seq<Entry>) {
    forall i, j :: 0 <= i < j < |es| ==> es[i].key < es[j].key
  }

  /** The table that a run of entries stands for; a later entry overwrites an earlier one. */
  function TableOf(es: seq<Entry>): Table {
    if es == [] then map[]
    else
      var last := es[|es| - 1];
      TableOf(es[..|es| - 1])[last.key := last.cell]
  }

  lemma {:induction false} InTable(es: seq<Entry>, i: nat)
    requires Ascending(es) && i < |es|
    ensures es[i].key in TableOf(es) && TableOf(es)[es[i].key] == es[i].cell
  {
    if i < |es| - 1 {
      InTable(es[..|es| - 1], i);
    }
  }

  lemma {:induction false} OfTable(es: seq<Entry>, k: int)
    ensures k in TableOf(es) <==> exists i :: 0 <= i < |es| && es[i].key == k
  {
    if es != [] {
      var front := es[..|es| - 1];
      OfTable(front, k);
      if k in TableOf(front) {
        var i :| 0 <= i < |front| && front[i].key == k;
        assert es[i].key == k;
      }
      if k == es[|es| - 1].key { assert es[|es| - 1].key == k; }
      if exists i :: 0 <= i < |es| && es[i].key == k {
        var i :| 0 <= i < |es| && es[i].key == k;
        assert i < |es| - 1 ==> front[i].key == k;
      }
    }
  }

  lemma TableSnoc(es: seq<Entry>, e: Entry)
    ensures TableOf(es + [e]) == TableOf(es)[e.key := e.cell]
  {
    assert (es + [e])[..|es|] == es;
  }

  lemma AscendingSnoc(es: seq<Entry>, e: Entry)
    requires Ascending(es) && forall d :: d in es ==> d.key < e.key
    ensures Ascending(es + [e])
  {}

  /** Ascending runs of the same table are the same. */
  lemma {:induction false} AscendingUnique(es: seq<Entry>, fs: seq<Entry>)
    requires Ascending(es) && Ascending(fs) && TableOf(es) == TableOf(fs)
    ensures es == fs
    decreases |es|
  {
    if es == [] {
      if fs != [] { InTable(fs, 0); }
    } else if fs == [] {
      InTable(es, 0);
    } else {
      hide TableOf, Ascending;
      var n, m := |es| - 1, |fs| - 1;
      SameLast(es, fs);
      FrontTable(es);
      FrontTable(fs);
      FrontAscending(es);
      FrontAscending(fs);
      AscendingUnique(es[..n], fs[..m]);
      assert es == es[..n] + [es[n]] && fs == fs[..m] + [fs[m]];
    }
  }

  lemma FrontAscending(es: seq<Entry>)
    requires Ascending(es) && es != []
    ensures Ascending(es[..|es| - 1])
  {}

  lemma SameLast(es: seq<Entry>, fs: seq<Entry>)
    requires Ascending(es) && Ascending(fs) && TableOf(es) == TableOf(fs) && es != [] && fs != []
    ensures es[|es| - 1] == fs[|fs| - 1]
  {
    LastIsGreatest(es, fs);
    LastIsGreatest(fs, es);
    InTable(es, |es| - 1);
    InTable(fs, |fs| - 1);
    hide TableOf, Ascending;
  }

  lemma LastIsGreatest(es: seq<Entry>, fs: seq<Entry>)
    requires Ascending(es) && es != [] && fs != [] && TableOf(es) == TableOf(fs) && Ascending(fs)
    ensures fs[|fs| - 1].key <= es[|es| - 1].key
  {
    InTable(fs, |fs| - 1);
    OfTable(es, fs[|fs| - 1].key);
  }

  lemma FrontTable(es: seq<Entry>)
    requires Ascending(es) && es != []
    ensures TableOf(es[..|es| - 1]) == TableOf(es) - {es[|es| - 1].key}
  {
    var front, last := es[..|es| - 1], es[|es| - 1];
    OfTable(front, last.key);
    assert last.key !in TableOf(front);
    assert TableOf(es) == TableOf(front)[last.key := last.cell];
    hide TableOf, Ascending;
  }

  // ---------------------------------------------------------------- ranges

  predicate InRange(k: int, from: Option<int>, to: Option<int>) {
    (from.Some? ==> from.value <= k) && (to.Some? ==> k < to.value)
  }

  function Within(t: Table, from: Option<int>, to: Option<int>): Table {
    map k | k in t && InRange(k, from, to) :: t[k]
  }

  lemma WithinAll(t: Table)
    ensures Within(t, None, None) == t
  {}

  // ---------------------------------------------------------------- layers

  /** What a stack of tables holds, the newest first. */
  function Layered(ts: seq<Table>): Table {
    if ts == [] then map[] else Layered(ts[1..]) + ts[0]
  }

  /** The first table that has a key decides. */
  lemma {:induction false} FirstDecides(ts: seq<Table>, i: nat, k: int)
    requires i < |ts| && k in ts[i] && forall j :: 0 <= j < i ==> k !in ts[j]
    ensures k in Layered(ts) && Layered(ts)[k] == ts[i][k]
  {
    if i > 0 {
      assert k !in ts[0];
      assert forall j :: 0 <= j < i - 1 ==> ts[1..][j] == ts[j + 1];
      FirstDecides(ts[1..], i - 1, k);
    }
  }

  lemma {:induction false} NoneDecides(ts: seq<Table>, k: int)
    requires forall j :: 0 <= j < |ts| ==> k !in ts[j]
    ensures k !in Layered(ts)
  {
    if ts != [] { NoneDecides(ts[1..], k); }
  }

  /** The live contents: what a plain map would hold. */
  function Contents(t: Table): map<int, Bytes> {
    map k | k in t && t[k].Value? :: t[k].value
  }

  lemma ContentsPut(t: Table, k: int, v: Bytes)
    ensures Contents(t[k := Value(v)]) == Contents(t)[k := v]
  {}

  lemma ContentsDeleted(t: Table, k: int)
    ensures Contents(t[k := Tombstone]) == Contents(t) - {k}
  {}

  /** Only the values of a table, as a full compaction keeps them. */
  function Alive(t: Table): Table {
    map k | k in t && t[k].Value? :: t[k]
  }

  /** With nothing older underneath, tombstones can go. */
  lemma AliveSame(t: Table, newer: Table)
    ensures Contents(Alive(t) + newer) == Contents(t + newer)
  {}

  // ---------------------------------------------------------------- operations at once

  lemma LayerCons(t: Table, ts: seq<Table>)
    ensures Layered([t] + ts) == Layered(ts) + t
  {
    assert ([t] + ts)[1..] == ts;
  }

  lemma LayerOne(t: Table)
    ensures Layered([t]) == t
  {
    assert [t][1..] == [];
    assert map[] + t == t;
  }

  lemma LayersWithin(ts: seq<Table>, from: Option<int>, to: Option<int>, i: nat)
    requires i < |ts|
    ensures Within(Layered(ts[i..]), from, to) == Within(Layered(ts[i + 1..]), from, to) + Within(ts[i], from, to)
  {
    assert ts[i..][1..] == ts[i + 1..];
  }
}
