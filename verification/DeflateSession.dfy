/** Compressing and then decompressing: what `C-Deflate/tests/test_deflate.c` does for every input. */
module DeflateSession {
  import opened Options
  import opened DeflateBits
  import opened DeflateFormat
  import opened DeflatePlan
  import opened DeflateStream
  import opened InflateStream

  /** With the room the documentation asks for, compression succeeds, and the input comes back exactly
      when it is not one of those the encoder loses. */
  method CompressThenDecompress(inp: seq<byte>, level: int, packed: array<byte>, back: array<byte>)
    returns (size: int, restored: int)
    requires packed != back && packed.Length >= Bound(|inp|) && back.Length >= |inp|
    modifies packed, back
    ensures 0 <= size <= Bound(|inp|)
    ensures restored == |inp| && back[..|inp|] == inp <==> !Lost(inp, level)
  {
    hide PlanOf, Emitted, Inflate, Lost, ByteBits, PlanSize, Bound, Delivered, Shaped;
    size := Compress(inp, packed, level);
    SizeBound(inp, level);
    EmittedFits(PlanOf(inp, level), inp, packed[..], size);
    EmittedRoundTrip(inp, level, packed[..], size);
    assert packed[..][..size] == packed[..size];
    restored := Decompress(packed[..size], back);
    DeliveredMeans(Inflate(ByteBits(packed[..size])), restored, back, inp);
  }

  lemma DeliveredMeans(target: Option<seq<byte>>, r: int, out: array<byte>, inp: seq<byte>)
    requires Delivered(target, r, out) && out.Length >= |inp|
    ensures r == |inp| && out[..|inp|] == inp <==> target == Some(inp)
  {}

  lemma EmittedFits(plan: Plan, inp: seq<byte>, out: seq<byte>, result: int)
    requires Shaped(plan) && Emitted(plan, inp, out, result) && PlanSize(plan, inp) <= |out|
    ensures result == PlanSize(plan, inp)
  {}
}
