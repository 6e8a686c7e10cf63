/** `Java-LSM/src/lsm/WriteAheadLog.java`: the record format, and a replay that stops at a torn
    last record. */
module WriteAheadLogs {
  import opened LsmBytes

  datatype Op = Put(key: int, value: Bytes) | Delete(key: int)

  /** One record: operation, key length, key, and for a put value length and value. */
  function Record(cd: Coding, op: Op): seq<Byte> {
    var k := cd.enc(op.key);
    match op
    case Put(_, v) => [0] + (Num(|k|, 4) + (k + (Num(|v|, 4) + v)))
    case Delete(_) => [1] + (Num(|k|, 4) + k)
  }

  function Log(cd: Coding, ops: seq<Op>): seq<Byte> {
    if ops == [] then [] else Record(cd, ops[0]) + Log(cd, ops[1..])
  }

  lemma {:induction false} LogAppends(cd: Coding, ops: seq<Op>, op: Op)
    ensures Log(cd, ops + [op]) == Log(cd, ops) + Record(cd, op)
  {
    hide Record;
    if ops == [] {
      assert ops + [op] == [op] && [op][1..] == [];
      assert Log(cd, [op]) == Record(cd, op) + Log(cd, []);
    } else {
      LogAppends(cd, ops[1..], op);
      assert (ops + [op])[1..] == ops[1..] + [op];
    }
  }

  // ---------------------------------------------------------------- replay

  datatype Step = Stop | Corrupt | Got(op: Op, size: nat)

  /** What one turn of the replay loop makes of the rest of the file. */
  function Next(cd: Coding, s: seq<Byte>): (r: Step)
    ensures r.Got? ==> 0 < r.size <= |s|
  {
    if |s| < 5 then Stop
    else
      var klen := Int(s[1..5]);
      if klen < 0 then Corrupt
      else if |s| < 5 + klen then Stop
      else if s[0] == 1 then Got(Delete(cd.dec(s[5..5 + klen])), 5 + klen)
      else if |s| < 9 + klen then Stop
      else
        var vlen := Int(s[5 + klen..9 + klen]);
        if vlen < 0 then Corrupt
        else if |s| < 9 + klen + vlen then Stop
        else Got(Put(cd.dec(s[5..5 + klen]), s[9 + klen..9 + klen + vlen]), 9 + klen + vlen)
  }

  /** The operations handed to the handler, and whether the replay came to a clean stop. */
  datatype Outcome = Outcome(ops: seq<Op>, clean: bool)

  function ReplayOf(cd: Coding, s: seq<Byte>): Outcome
    decreases |s|
  {
    match Next(cd, s)
    case Stop => Outcome([], true)
    case Corrupt => Outcome([], false)
    case Got(op, size) => var rest := ReplayOf(cd, s[size..]); Outcome([op] + rest.ops, rest.clean)
  }

  /** The fields of a record, by position. */
  lemma Fields(cd: Coding, op: Op)
    ensures var r, k := Record(cd, op), cd.enc(op.key);
      && |r| >= 5 + |k| && r[0] == (if op.Delete? then 1 else 0) && r[1..5] == Num(|k|, 4) && r[5..5 + |k|] == k
      && (op.Delete? ==> |r| == 5 + |k|)
      && (op.Put? ==>
           |r| == 9 + |k| + |op.value| && r[5 + |k|..9 + |k|] == Num(|op.value|, 4) && r[9 + |k|..] == op.value)
  {}

  lemma SliceOfPrefix(r: seq<Byte>, s: seq<Byte>, i: nat, j: nat)
    requires r <= s && i <= j <= |r|
    ensures s[i..j] == r[i..j]
  {}

  lemma DeleteRead(cd: Coding, s: seq<Byte>, n: nat)
    requires |s| >= 5 + n && s[0] == 1 && Int(s[1..5]) == n
    ensures Next(cd, s) == Got(Delete(cd.dec(s[5..5 + n])), 5 + n)
  {
    hide Int;
  }

  lemma PutRead(cd: Coding, s: seq<Byte>, n: nat, v: Bytes)
    requires |s| >= 9 + n + |v| && s[0] == 0 && Int(s[1..5]) == n && Int(s[5 + n..9 + n]) == |v|
    requires s[9 + n..9 + n + |v|] == v
    ensures Next(cd, s) == Got(Put(cd.dec(s[5..5 + n]), v), 9 + n + |v|)
  {
    hide Int;
  }

  /** All operations are on codable keys. */
  ghost predicate Readable(cd: Coding, ops: seq<Op>) {
    forall i :: 0 <= i < |ops| ==> Codable(cd, ops[i].key)
  }

  /** A record followed by anything is read back, and nothing behind it is touched: the same operation
      exactly when its key survives the coding. */
  lemma RecordReadBack(cd: Coding, op: Op, s: seq<Byte>)
    requires Record(cd, op) <= s
    ensures Next(cd, s) == Got(op.(key := cd.dec(cd.enc(op.key))), |Record(cd, op)|)
    ensures Next(cd, s) == Got(op, |Record(cd, op)|) <==> Codable(cd, op.key)
  {
    hide Record, Next, Int, Num;
    var k, r := cd.enc(op.key), Record(cd, op);
    Fields(cd, op);
    IntRoundTrip(|k|);
    SliceOfPrefix(r, s, 1, 5);
    SliceOfPrefix(r, s, 5, 5 + |k|);
    match op
    case Delete(_) => DeleteRead(cd, s, |k|);
    case Put(_, v) =>
      IntRoundTrip(|v|);
      SliceOfPrefix(r, s, 5 + |k|, 9 + |k|);
      SliceOfPrefix(r, s, 9 + |k|, |r|);
      assert r[9 + |k|..|r|] == r[9 + |k|..];
      PutRead(cd, s, |k|, v);
  }

  /** Part of a record is recognised as torn. */
  lemma TornRecordStops(cd: Coding, op: Op, cut: nat)
    requires cut < |Record(cd, op)|
    ensures Next(cd, Record(cd, op)[..cut]) == Stop
  {
    hide Record;
    var k, r := cd.enc(op.key), Record(cd, op);
    var s := r[..cut];
    Fields(cd, op);
    if cut >= 5 {
      IntRoundTrip(|k|);
      SliceOfPrefix(s, r, 1, 5);
      if op.Put? && cut >= 9 + |k| {
        IntRoundTrip(|op.value|);
        SliceOfPrefix(s, r, 5 + |k|, 9 + |k|);
      }
    }
    hide Int, Num;
  }

  lemma NothingStops(cd: Coding, s: seq<Byte>)
    requires s == []
    ensures Next(cd, s) == Stop
  {}

  /** How many records lie wholly before the cut. */
  function WholeBefore(cd: Coding, ops: seq<Op>, cut: nat): (n: nat)
    ensures n <= |ops|
  {
    if ops == [] || cut < |Record(cd, ops[0])| then 0
    else 1 + WholeBefore(cd, ops[1..], cut - |Record(cd, ops[0])|)
  }

  /** And that number is right: the cut falls into, or before, the next record. */
  lemma {:induction false} WholeBeforeIs(cd: Coding, ops: seq<Op>, cut: nat)
    ensures var n := WholeBefore(cd, ops, cut);
      |Log(cd, ops[..n])| <= cut && (n < |ops| ==> cut < |Log(cd, ops[..n + 1])|)
  {
    hide Record;
    if ops != [] {
      var n, size := WholeBefore(cd, ops, cut), |Record(cd, ops[0])|;
      if cut >= size {
        WholeBeforeIs(cd, ops[1..], cut - size);
        assert ops[..n][1..] == ops[1..][..n - 1];
        if n < |ops| { assert ops[..n + 1][1..] == ops[1..][..n]; }
      } else {
        assert ops[..1] == [ops[0]] && [ops[0]][1..] == [];
      }
    }
  }

  /** A log cut at any byte replays exactly the records wholly before the cut. */
  lemma {:induction false} CutReplays(cd: Coding, ops: seq<Op>, cut: nat)
    requires Readable(cd, ops) && cut <= |Log(cd, ops)|
    ensures ReplayOf(cd, Log(cd, ops)[..cut]) == Outcome(ops[..WholeBefore(cd, ops, cut)], true)
  {
    hide Record, Next;
    var s := Log(cd, ops)[..cut];
    if ops != [] {
      var r := Record(cd, ops[0]);
      if cut < |r| {
        assert s == r[..cut];
        TornRecordStops(cd, ops[0], cut);
      } else {
        assert r <= s && s[|r|..] == Log(cd, ops[1..])[..cut - |r|];
        RecordReadBack(cd, ops[0], s);
        CutReplays(cd, ops[1..], cut - |r|);
        var n := WholeBefore(cd, ops, cut);
        assert ops[..n] == [ops[0]] + ops[1..][..n - 1];
      }
    } else {
      NothingStops(cd, s);
    }
  }

  lemma ReplayStep(cd: Coding, s: seq<Byte>, op: Op, size: nat)
    requires size <= |s| && Next(cd, s) == Got(op, size)
    ensures ReplayOf(cd, s).clean == ReplayOf(cd, s[size..]).clean
    ensures ReplayOf(cd, s).ops == [op] + ReplayOf(cd, s[size..]).ops
  {
    hide Next;
  }

  /** Whole records are replayed, whatever stands behind them. */
  lemma {:induction false} ReplayGoesOn(cd: Coding, ops: seq<Op>, s: seq<Byte>)
    requires Readable(cd, ops)
    ensures ReplayOf(cd, Log(cd, ops) + s) == Outcome(ops + ReplayOf(cd, s).ops, ReplayOf(cd, s).clean)
  {
    hide Record, Next, ReplayOf;
    if ops == [] {
      assert Log(cd, ops) + s == s && ops + ReplayOf(cd, s).ops == ReplayOf(cd, s).ops;
    } else {
      var r, rest := Record(cd, ops[0]), Log(cd, ops[1..]) + s;
      assert Log(cd, ops) + s == r + rest && (r + rest)[|r|..] == rest;
      RecordReadBack(cd, ops[0], r + rest);
      ReplayStep(cd, r + rest, ops[0], |r|);
      ReplayGoesOn(cd, ops[1..], s);
      assert [ops[0]] + (ops[1..] + ReplayOf(cd, s).ops) == ops + ReplayOf(cd, s).ops;
    }
  }

  /** An uncut log replays whole. */
  lemma WholeLogReplays(cd: Coding, ops: seq<Op>)
    requires Readable(cd, ops)
    ensures ReplayOf(cd, Log(cd, ops)) == Outcome(ops, true)
  {
    hide Log, ReplayOf, Next;
    var nothing: seq<Byte> := [];
    ReplayGoesOn(cd, ops, nothing);
    NothingReplays(cd);
    assert Log(cd, ops) + nothing == Log(cd, ops) && ops + [] == ops;
  }

  lemma NothingReplays(cd: Coding)
    ensures ReplayOf(cd, []) == Outcome([], true)
  {
    NothingStops(cd, []);
  }

  lemma {:induction false} WholeBeforeAll(cd: Coding, ops: seq<Op>)
    ensures WholeBefore(cd, ops, |Log(cd, ops)|) == |ops|
  {
    if ops != [] { WholeBeforeAll(cd, ops[1..]); }
  }

  // ---------------------------------------------------------------- appending behind a cut

  /** A log cut within a record: the whole records, then a proper part of the next. */
  lemma {:induction false} CutSplits(cd: Coding, ops: seq<Op>, cut: nat) returns (tail: seq<Byte>)
    requires cut <= |Log(cd, ops)|
    ensures var n := WholeBefore(cd, ops, cut);
      && Log(cd, ops)[..cut] == Log(cd, ops[..n]) + tail
      && (tail != [] ==> n < |ops| && |tail| < |Record(cd, ops[n])| && tail <= Record(cd, ops[n]))
  {
    hide Record;
    var s := Log(cd, ops)[..cut];
    if ops == [] || cut < |Record(cd, ops[0])| {
      tail := s;
      assert ops[..0] == [] && Log(cd, ops[..0]) == [];
      if ops != [] { assert s == Record(cd, ops[0])[..cut]; }
    } else {
      var r, n := Record(cd, ops[0]), WholeBefore(cd, ops, cut);
      tail := CutSplits(cd, ops[1..], cut - |r|);
      assert n == 1 + WholeBefore(cd, ops[1..], cut - |r|);
      hide WholeBefore;
      assert s == r + Log(cd, ops[1..])[..cut - |r|];
      assert ops[..n][1..] == ops[1..][..n - 1];
      assert Log(cd, ops[..n]) == r + Log(cd, ops[1..][..n - 1]);
    }
  }

  /** The first byte decides between a put and a delete. */
  lemma KindOfFirst(cd: Coding, s: seq<Byte>)
    requires s != [] && Next(cd, s).Got?
    ensures Next(cd, s).op.Delete? <==> s[0] == 1
  {
    hide Int;
  }

  /** An operation of the other kind. */
  function Opposite(op: Op): (other: Op)
    ensures other.Put? <==> op.Delete?
  {
    if op.Put? then Delete(op.key) else Put(op.key, [])
  }

  /** Behind part of a record, one of the other kind is not read back. */
  lemma TornTailSwallows(cd: Coding, op: Op, tail: seq<Byte>)
    requires tail != [] && tail <= Record(cd, op)
    ensures ReplayOf(cd, tail + Record(cd, Opposite(op))).ops != [Opposite(op)]
  {
    hide Record, Next;
    Fields(cd, op);
    var s := tail + Record(cd, Opposite(op));
    assert s[0] == tail[0] == Record(cd, op)[0];
    var first := Next(cd, s);
    if first.Got? {
      KindOfFirst(cd, s);
      ReplayStep(cd, s, first.op, first.size);
      assert ReplayOf(cd, s).ops[0] == first.op;
    }
  }

  ghost predicate ReplaysTo(cd: Coding, s: seq<Byte>, ops: seq<Op>) {
    ReplayOf(cd, s) == Outcome(ops, true)
  }

  /** The log is reopened for appending without cutting a torn tail off.  What is appended is sure to
      be replayed exactly when the crash cut the log between two records. */
  lemma AppendAfterCut(cd: Coding, ops: seq<Op>, cut: nat)
    requires Readable(cd, ops) && cut <= |Log(cd, ops)|
    ensures var whole := ops[..WholeBefore(cd, ops, cut)];
      (forall op: Op :: Codable(cd, op.key) ==> ReplaysTo(cd, Log(cd, ops)[..cut] + Record(cd, op), whole + [op])) <==>
      cut == |Log(cd, whole)|
  {
    hide Record, Log, WholeBefore, ReplayOf;
    var n := WholeBefore(cd, ops, cut);
    var whole := ops[..n];
    var tail := CutSplits(cd, ops, cut);
    if tail == [] {
      forall op: Op | Codable(cd, op.key)
        ensures ReplaysTo(cd, Log(cd, ops)[..cut] + Record(cd, op), whole + [op])
      {
        LogAppends(cd, whole, op);
        assert Log(cd, whole) + tail == Log(cd, whole);
        WholeLogReplays(cd, whole + [op]);
      }
    } else {
      var other := Opposite(ops[n]);
      var s := tail + Record(cd, other);
      TornTailSwallows(cd, ops[n], tail);
      ReplayGoesOn(cd, whole, s);
      assert Log(cd, ops)[..cut] + Record(cd, other) == Log(cd, whole) + s;
      assert ReplayOf(cd, s).ops != [other];
      assert (whole + ReplayOf(cd, s).ops)[n..] == ReplayOf(cd, s).ops && (whole + [other])[n..] == [other];
    }
  }

  // ---------------------------------------------------------------- the log file

  class WriteAheadLog {
    const cd: Coding
    var file: seq<Byte>

    constructor (cd: Coding, existing: seq<Byte>)
      ensures this.cd == cd && file == existing
    {
      this.cd, file := cd, existing;
    }

    method Append(key: int, value: Bytes, tombstone: bool)
      modifies this
      ensures file == old(file) + Record(cd, if tombstone then Delete(key) else Put(key, value))
    {
      var k := cd.enc(key);
      var record: seq<Byte> := [if tombstone then 1 else 0];
      record := record + Num(|k|, 4);
      record := record + k;
      if !tombstone {
        record := record + Num(|value|, 4);
        record := record + value;
      }
      assert record == Record(cd, if tombstone then Delete(key) else Put(key, value));
      file := file + record;
    }

    method Truncate()
      modifies this
      ensures file == []
    {
      file := [];
    }

    /** `replay`: the operations handed over, in order. */
    static method Replay(cd: Coding, file: seq<Byte>) returns (ops: seq<Op>, clean: bool)
      ensures Outcome(ops, clean) == ReplayOf(cd, file)
    {
      hide Next;
      ops, clean := [], true;
      var rest := file;
      while true
        invariant ReplayOf(cd, file) == Outcome(ops + ReplayOf(cd, rest).ops, ReplayOf(cd, rest).clean)
        decreases |rest|
      {
        var step := ReadRecord(cd, rest);
        match step {
          case Stop => return ops + [], true;
          case Corrupt => return ops + [], false;
          case Got(op, size) =>
            assert ops + ([op] + ReplayOf(cd, rest[size..]).ops) == (ops + [op]) + ReplayOf(cd, rest[size..]).ops;
            ops := ops + [op];
            rest := rest[size..];
        }
      }
    }

    /** One turn of the replay loop: fields are read one after the other, and a short read stops it. */
    static method ReadRecord(cd: Coding, s: seq<Byte>) returns (r: Step)
      ensures r == Next(cd, s)
    {
      if |s| < 1 { return Stop; }
      var op, pos := s[0], 1;
      if |s| < pos + 4 { return Stop; }
      var klen := Int(s[pos..pos + 4]);
      pos := pos + 4;
      if klen < 0 { return Corrupt; }
      var k := s[pos..if pos + klen <= |s| then pos + klen else |s|];
      pos := pos + |k|;
      if |k| < klen { return Stop; }
      var key := cd.dec(k);
      if op == 1 { return Got(Delete(key), pos); }
      if |s| < pos + 4 { return Stop; }
      var vlen := Int(s[pos..pos + 4]);
      pos := pos + 4;
      if vlen < 0 { return Corrupt; }
      var v := s[pos..if pos + vlen <= |s| then pos + vlen else |s|];
      pos := pos + |v|;
      if |v| < vlen { return Stop; }
      return Got(Put(key, v), pos);
    }
  }
}
