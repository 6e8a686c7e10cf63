/** Ordered key-value entries and the finite map they stand for. */
module BTreeEntries {
  import opened Options

  type Value

  datatype Entry = Entry(key: int, value: Value)

  ghost predicate Ascending(es: seq<Entry>) {
    forall i, j :: 0 <= i < j < |es| ==> es[i].key < es[j].key
  }

  ghost predicate AllBelow(es: seq<Entry>, k: int) {
    forall e :: e in es ==> e.key < k
  }

  ghost predicate AllFrom(es: seq<Entry>, k: int) {
    forall e :: e in es ==> k <= e.key
  }

  function Lookup(es: seq<Entry>, k: int): Option<Value> {
    if es == [] then None
    else if es[0].key == k then Some(es[0].value)
    else Lookup(es[1..], k)
  }

  function With(es: seq<Entry>, k: int, v: Value): seq<Entry> {
    if es == [] || k < es[0].key then [Entry(k, v)] + es
    else if es[0].key == k then [Entry(k, v)] + es[1..]
    else [es[0]] + With(es[1..], k, v)
  }

  function Without(es: seq<Entry>, k: int): seq<Entry> {
    if es == [] then []
    else if es[0].key == k then es[1..]
    else [es[0]] + Without(es[1..], k)
  }

  /** The entries with `from <= key < to`; a missing bound is open. */
  function Between(es: seq<Entry>, from: Option<int>, to: Option<int>): seq<Entry> {
    if es == [] then []
    else
      var rest := Between(es[1..], from, to);
      if (from.Some? && es[0].key < from.value) || (to.Some? && es[0].key >= to.value) then rest
      else [es[0]] + rest
  }

  // ---------------------------------------------------------------- the map they stand for

  ghost function ToMap(es: seq<Entry>): map<int, Value> {
    if es == [] then map[] else ToMap(es[1..])[es[0].key := es[0].value]
  }

  lemma {:induction false} ToMapKeys(es: seq<Entry>, k: int)
    ensures k in ToMap(es) <==> exists i :: 0 <= i < |es| && es[i].key == k
  {
    if es != [] {
      ToMapKeys(es[1..], k);
      if k in ToMap(es[1..]) {
        var i :| 0 <= i < |es[1..]| && es[1..][i].key == k;
        assert es[i + 1].key == k;
      }
      if i :| 0 < i < |es| && es[i].key == k {
        assert es[1..][i - 1].key == k;
      }
    }
  }

  lemma {:induction false} LookupIsMap(es: seq<Entry>, k: int)
    ensures Lookup(es, k) == if k in ToMap(es) then Some(ToMap(es)[k]) else None
  {
    if es != [] { LookupIsMap(es[1..], k); }
  }

  lemma {:induction false} PutIsUpdate(es: seq<Entry>, k: int, v: Value)
    ensures ToMap(With(es, k, v)) == ToMap(es)[k := v]
  {
    if es == [] || k < es[0].key {
      assert ([Entry(k, v)] + es)[1..] == es;
    } else if es[0].key == k {
      assert ([Entry(k, v)] + es[1..])[1..] == es[1..];
    } else {
      PutIsUpdate(es[1..], k, v);
      assert ([es[0]] + With(es[1..], k, v))[1..] == With(es[1..], k, v);
    }
  }

  lemma {:induction false} RemoveIsMinus(es: seq<Entry>, k: int)
    requires Ascending(es)
    ensures ToMap(Without(es, k)) == ToMap(es) - {k}
  {
    if es != [] {
      if es[0].key == k {
        ToMapKeys(es[1..], k);
      } else {
        RemoveIsMinus(es[1..], k);
        assert ([es[0]] + Without(es[1..], k))[1..] == Without(es[1..], k);
      }
    }
  }

  lemma {:induction false} ToMapSize(es: seq<Entry>)
    requires Ascending(es)
    ensures |ToMap(es)| == |es|
  {
    if es != [] {
      ToMapSize(es[1..]);
      ToMapKeys(es[1..], es[0].key);
      var m := ToMap(es[1..]);
      assert ToMap(es).Keys == m.Keys + {es[0].key};
    }
  }

  lemma ToMapFirst(a: seq<Entry>)
    requires Ascending(a) && a != []
    ensures a[0].key in ToMap(a) && ToMap(a)[a[0].key] == a[0].value
    ensures ToMap(a[1..]) == ToMap(a) - {a[0].key}
    ensures forall k :: k in ToMap(a) ==> a[0].key <= k
  {
    ToMapKeys(a[1..], a[0].key);
    forall k | k in ToMap(a) ensures a[0].key <= k { ToMapKeys(a, k); }
  }

  /** Ascending entries are determined by their map: a scan has no freedom in order or content. */
  lemma {:induction false} MapDetermines(a: seq<Entry>, b: seq<Entry>)
    requires Ascending(a) && Ascending(b) && ToMap(a) == ToMap(b)
    ensures a == b
  {
    if a != [] { ToMapFirst(a); }
    if b != [] { ToMapFirst(b); }
    if a != [] && b != [] {
      assert a[0] == b[0];
      MapDetermines(a[1..], b[1..]);
    }
  }

  ghost predicate InRange(k: int, from: Option<int>, to: Option<int>) {
    (from.Some? ==> from.value <= k) && (to.Some? ==> k < to.value)
  }

  lemma {:induction false} BetweenMembers(es: seq<Entry>, from: Option<int>, to: Option<int>, e: Entry)
    ensures e in Between(es, from, to) <==> e in es && InRange(e.key, from, to)
  {
    if es != [] {
      BetweenMembers(es[1..], from, to, e);
      assert es == [es[0]] + es[1..];
    }
  }

  /** The range is the sub-map of the keys inside it. */
  lemma {:induction false} BetweenIsSubMap(es: seq<Entry>, from: Option<int>, to: Option<int>)
    requires Ascending(es)
    ensures ToMap(Between(es, from, to)) == map k | k in ToMap(es) && InRange(k, from, to) :: ToMap(es)[k]
  {
    if es != [] {
      BetweenIsSubMap(es[1..], from, to);
      ToMapFirst(es);
      var rest := Between(es[1..], from, to);
      if InRange(es[0].key, from, to) {
        assert ([es[0]] + rest)[1..] == rest;
      }
    }
  }

  lemma {:induction false} BetweenOpen(es: seq<Entry>)
    ensures Between(es, None, None) == es
  {
    if es != [] { BetweenOpen(es[1..]); }
  }

  lemma {:induction false} BetweenAscends(es: seq<Entry>, from: Option<int>, to: Option<int>)
    requires Ascending(es)
    ensures Ascending(Between(es, from, to))
  {
    if es != [] {
      var rest := Between(es[1..], from, to);
      BetweenAscends(es[1..], from, to);
      forall i | 0 <= i < |rest| ensures es[0].key < rest[i].key {
        BetweenMembers(es[1..], from, to, rest[i]);
      }
    }
  }

  // ---------------------------------------------------------------- working in the middle

  lemma {:induction false} LookupMiddle(a: seq<Entry>, b: seq<Entry>, c: seq<Entry>, k: int)
    requires AllBelow(a, k) && AllFrom(c, k + 1)
    ensures Lookup(a + b + c, k) == Lookup(b, k)
  {
    if a != [] {
      assert (a + b + c)[1..] == a[1..] + b + c;
      LookupMiddle(a[1..], b, c, k);
    } else if b != [] {
      assert (b + c)[1..] == b[1..] + c;
      assert [] + b[1..] + c == b[1..] + c && [] + b + c == b + c;
      LookupMiddle([], b[1..], c, k);
    } else {
      assert a + b + c == c;
      NotThere(c, k);
    }
  }

  lemma {:induction false} NotThere(c: seq<Entry>, k: int)
    requires AllFrom(c, k + 1)
    ensures Lookup(c, k) == None && Without(c, k) == c
  {
    if c != [] {
      NotThere(c[1..], k);
    }
  }

  lemma {:induction false} PutLength(es: seq<Entry>, k: int, v: Value)
    requires Ascending(es)
    ensures |With(es, k, v)| == |es| + if Lookup(es, k).None? then 1 else 0
  {
    if es != [] {
      if k < es[0].key {
        NotThere(es, k);
      } else {
        PutLength(es[1..], k, v);
      }
    }
  }

  lemma {:induction false} RemoveLength(es: seq<Entry>, k: int)
    ensures |Without(es, k)| == |es| - if Lookup(es, k).Some? then 1 else 0
  {
    if es != [] { RemoveLength(es[1..], k); }
  }

  lemma {:induction false} PutAfter(a: seq<Entry>, r: seq<Entry>, k: int, v: Value)
    requires AllBelow(a, k)
    ensures With(a + r, k, v) == a + With(r, k, v)
  {
    if a == [] {
      assert a + r == r;
    } else {
      assert (a + r)[1..] == a[1..] + r;
      PutAfter(a[1..], r, k, v);
    }
  }

  lemma {:induction false} PutBefore(b: seq<Entry>, c: seq<Entry>, k: int, v: Value)
    requires AllFrom(c, k + 1)
    ensures With(b + c, k, v) == With(b, k, v) + c
  {
    if b == [] {
      assert b + c == c;
      NotThere(c, k);
    } else {
      assert (b + c)[1..] == b[1..] + c;
      PutBefore(b[1..], c, k, v);
    }
  }

  lemma PutMiddle(a: seq<Entry>, b: seq<Entry>, c: seq<Entry>, k: int, v: Value)
    requires AllBelow(a, k) && AllFrom(c, k + 1)
    ensures With(a + b + c, k, v) == a + With(b, k, v) + c
  {
    assert a + b + c == a + (b + c);
    PutAfter(a, b + c, k, v);
    PutBefore(b, c, k, v);
  }

  lemma {:induction false} RemoveAfter(a: seq<Entry>, r: seq<Entry>, k: int)
    requires AllBelow(a, k)
    ensures Without(a + r, k) == a + Without(r, k)
  {
    if a == [] {
      assert a + r == r;
    } else {
      assert (a + r)[1..] == a[1..] + r;
      RemoveAfter(a[1..], r, k);
    }
  }

  lemma {:induction false} RemoveBefore(b: seq<Entry>, c: seq<Entry>, k: int)
    requires AllFrom(c, k + 1)
    ensures Without(b + c, k) == Without(b, k) + c
  {
    if b == [] {
      assert b + c == c;
      NotThere(c, k);
    } else {
      assert (b + c)[1..] == b[1..] + c;
      RemoveBefore(b[1..], c, k);
    }
  }

  lemma RemoveMiddle(a: seq<Entry>, b: seq<Entry>, c: seq<Entry>, k: int)
    requires AllBelow(a, k) && AllFrom(c, k + 1)
    ensures Without(a + b + c, k) == a + Without(b, k) + c
  {
    hide Without, AllBelow, AllFrom;
    assert a + b + c == a + (b + c);
    RemoveAfter(a, b + c, k);
    RemoveBefore(b, c, k);
    assert a + (Without(b, k) + c) == a + Without(b, k) + c;
  }

  lemma {:induction false} BetweenConcat(a: seq<Entry>, b: seq<Entry>, from: Option<int>, to: Option<int>)
    ensures Between(a + b, from, to) == Between(a, from, to) + Between(b, from, to)
  {
    if a == [] {
      assert a + b == b;
    } else {
      assert (a + b)[1..] == a[1..] + b;
      BetweenConcat(a[1..], b, from, to);
    }
  }

  lemma {:induction false} NoneBetween(es: seq<Entry>, from: Option<int>, to: Option<int>)
    requires (from.Some? && AllBelow(es, from.value)) || (to.Some? && AllFrom(es, to.value))
    ensures Between(es, from, to) == []
  {
    if es != [] { NoneBetween(es[1..], from, to); }
  }
}
