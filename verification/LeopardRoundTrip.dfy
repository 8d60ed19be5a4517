// From the start of the 8-bit codec to recovered shards: tables, constructor and Encode, and then
// Reconstruct after the loss of shards.
module LeopardRoundTrip {

  import opened Wrappers
  import opened BitXor
  import opened Shards
  import opened Transform
  import opened LeopardEncode
  import opened LeopardCodec
  import opened LeopardTables
  import LeopardDecoder
  import opened Elements8
  import opened ParityLaws

  lemma CodecFromTable(skew: seq<nat>)
    requires SkewRight(skew)
    ensures IsCodec(Leopard8(skew)) && Leopard8(skew).Linear() && Columnwise(Leopard8(skew))
    ensures Leopard8(skew).mul == MulShard && |Leopard8(skew).skew| == 255
  {
    hide EntryRight, Leopard.Linear, Columnwise, MulShard;
    Leopard8Laws(skew);
  }

  lemma UniformSize(shards: seq<Shard>, size: nat)
    requires size > 0 && shards != [] && Uniform(shards, size)
    ensures ReedSolomon.SizeOf(shards) == size && ReedSolomon.Consistent(shards, false)
  {
    SameSize(shards, size);
  }

  // The start of the codec: its tables, its constructor, and Encode.
  method EncodeFresh(dataShards: nat, parityShards: nat, shards: array<Shard>, size: nat)
    returns (c: LeopardFF8, logWalsh: array<nat>)
    requires dataShards > 0 && parityShards > 0 && Pow2(BitLength(parityShards - 1)) + dataShards <= 256
    requires shards.Length == dataShards + parityShards && Uniform(shards[..], size) && size > 0 && size % 64 == 0
    modifies shards
    ensures c.dataShards == dataShards && c.parityShards == parityShards && IsCodec(c.t)
    ensures LeopardDecoder.TablesReady(c, logWalsh[..]) && LeopardDecoder.Positioned(c) && c.InTable()
    ensures shards[..] == LeopardDecoder.Encoding(c, old(shards[..dataShards]), size)
  {
    hide *;
    var fftSkew;
    fftSkew, logWalsh := LeopardDecoder.InitTables();
    var t := Leopard8(fftSkew[..]);
    CodecFromTable(fftSkew[..]);
    CeilPow2(parityShards);
    UniformSplit(shards[..], dataShards, size);
    var made := NewFF8(t, dataShards, parityShards);
    c := made.value;
    Ready(c, logWalsh[..]);
    ghost var data := shards[..dataShards];
    UniformSize(shards[..], size);
    VerdictOk(c, shards[..], size);
    var r := c.Encode(shards);
    WholeShards(c, data, shards[..], size);
  }

  // Whatever shards are lost after encoding, up to parityShards of them, all are back.
  method BringBack(c: LeopardFF8, logWalsh: array<nat>, shards: array<Shard>, pool: seq<Shard>, ghost data: seq<Shard>,
                   ghost size: nat, ghost lost: set<nat>)
    returns (r: Outcome<()>)
    requires LeopardDecoder.TablesReady(c, logWalsh[..]) && LeopardDecoder.Positioned(c) && IsCodec(c.t)
    requires c.InTable() && |data| == c.dataShards && Uniform(data, size) && size > 0 && size % 64 == 0
    requires shards.Length == c.dataShards + c.parityShards && |lost| <= c.parityShards
    requires forall i | 0 <= i < shards.Length ::
      shards[i] == if i in lost then [] else LeopardDecoder.Encoding(c, data, size)[i]
    modifies shards
    ensures r == Ok(()) && shards[..] == LeopardDecoder.Encoding(c, data, size)
  {
    hide *;
    ghost var left := shards[..];
    ReadyIsValid(c, logWalsh[..]);
    EncodingUniform(c, data, size);
    LeftShards(c, data, LeopardDecoder.Encoding(c, data, size), left, lost, size);
    r := LeopardDecoder.Reconstruct(c, logWalsh, shards, pool);
    AllBack(c, data, left, shards[..], size);
  }

  // The same for ReconstructData: the data shards are back, and lost parity shards stay so.
  method BringBackData(c: LeopardFF8, logWalsh: array<nat>, shards: array<Shard>, pool: seq<Shard>,
                       ghost data: seq<Shard>, ghost size: nat, ghost lost: set<nat>)
    returns (r: Outcome<()>)
    requires LeopardDecoder.TablesReady(c, logWalsh[..]) && LeopardDecoder.Positioned(c) && IsCodec(c.t)
    requires c.InTable() && |data| == c.dataShards && Uniform(data, size) && size > 0 && size % 64 == 0
    requires shards.Length == c.dataShards + c.parityShards && |lost| <= c.parityShards
    requires forall i | 0 <= i < shards.Length ::
      shards[i] == if i in lost then [] else LeopardDecoder.Encoding(c, data, size)[i]
    modifies shards
    ensures r == Ok(()) && shards[..c.dataShards] == data
    ensures shards[c.dataShards..] == old(shards[c.dataShards..])
  {
    hide *;
    ghost var left := shards[..];
    ReadyIsValid(c, logWalsh[..]);
    EncodingUniform(c, data, size);
    LeftShards(c, data, LeopardDecoder.Encoding(c, data, size), left, lost, size);
    r := LeopardDecoder.ReconstructData(c, logWalsh, shards, pool);
    DataBack(c, data, left, shards[..], size);
  }

  // The codec is ready, and its counts fit the tables.
  lemma Ready(c: LeopardFF8, logWalsh: seq<nat>)
    requires c.Valid() && c.t.mul == MulShard && |c.t.skew| == 255 && LeopardDecoder.WalshReady(logWalsh)
    requires Pow2(BitLength(c.parityShards - 1)) + c.dataShards <= 256
    ensures LeopardDecoder.TablesReady(c, logWalsh) && LeopardDecoder.Positioned(c) && c.InTable()
    ensures c.n == BitLength(c.parityShards - 1) && c.parityShards <= Pow2(c.n)
    ensures Fits(Pow2(c.n), c.dataShards, Pow2(c.n), 256)
  {
    hide LeopardDecoder.WalshReady, Fits, Leopard.Linear, Columnwise;
    PowersOfByte();
    CeilPow2(c.parityShards);
    FitsExactly(c.n, 8, c.dataShards);
  }

  lemma VerdictOk(c: LeopardFF8, shards: seq<Shard>, size: nat)
    requires |shards| == c.dataShards + c.parityShards && ReedSolomon.Consistent(shards, false)
    requires ReedSolomon.SizeOf(shards) == size && size % 64 == 0
    ensures c.Verdict(shards) == Ok(())
  {
    hide ReedSolomon.Consistent, ReedSolomon.SizeOf;
  }

  // What Encode leaves.
  lemma WholeShards(c: LeopardFF8, data: seq<Shard>, whole: seq<Shard>, size: nat)
    requires c.Valid() && c.InTable() && |whole| == c.dataShards + c.parityShards && size > 0
    requires |data| == c.dataShards && whole[..c.dataShards] == data && Uniform(data, size) && c.Matches(whole)
    requires ReedSolomon.SizeOf(whole) == size
    ensures whole == LeopardDecoder.Encoding(c, data, size)
  {
    hide Fits, Leopard.Linear, Columnwise, Parity, Pow2;
    assert whole == whole[..c.dataShards] + whole[c.dataShards..];
  }

  // What is left of it can be reconstructed.
  lemma LeftShards(c: LeopardFF8, data: seq<Shard>, whole: seq<Shard>, left: seq<Shard>, lost: set<nat>, size: nat)
    requires c.Valid() && c.InTable() && |whole| == |left| == c.dataShards + c.parityShards && size > 0
    requires size % 64 == 0 && |lost| <= c.parityShards && |data| == c.dataShards && Uniform(data, size)
    requires whole == LeopardDecoder.Encoding(c, data, size) && Uniform(whole, size)
    requires forall i | 0 <= i < |left| :: left[i] == if i in lost then [] else whole[i]
    ensures ReedSolomon.SizeOf(left) == size && LeopardDecoder.EncodedFrom(c, data, left)
    ensures LeopardDecoder.Suffices(left, c.dataShards, c.dataShards + c.parityShards, true)
    ensures LeopardDecoder.Suffices(left, c.dataShards, c.dataShards + c.parityShards, false)
  {
    hide Fits, Leopard.Linear, Columnwise, Pow2, LeopardDecoder.Encoding, ReedSolomon.OneSize;
    ReedSolomon.LeftShape(left, whole, lost, size);
    forall i | i in ReedSolomon.Held(left) ensures |left[i]| == size {
      assert |whole[i]| == size;
    }
  }

  lemma ReadyIsValid(c: LeopardFF8, logWalsh: seq<nat>)
    requires LeopardDecoder.TablesReady(c, logWalsh)
    ensures c.Valid()
  {
    hide LeopardFF8.Valid, LeopardDecoder.WalshReady;
  }

  lemma EncodingUniform(c: LeopardFF8, data: seq<Shard>, size: nat)
    requires c.Valid() && c.InTable() && |data| == c.dataShards && Uniform(data, size)
    ensures Uniform(LeopardDecoder.Encoding(c, data, size), size)
  {
    hide Fits, Leopard.Linear, Columnwise, Parity, Pow2;
    CeilPow2(c.parityShards);
    LinearLength(c.t);
    ParityCut(c.t, data, c.n, c.parityShards, 0, 0, size);
  }

  lemma AllBack(c: LeopardFF8, data: seq<Shard>, left: seq<Shard>, after: seq<Shard>, size: nat)
    requires c.Valid() && LeopardDecoder.EncodedFrom(c, data, left) && ReedSolomon.SizeOf(left) == size
    requires LeopardDecoder.Restored(c, data, left, after, true)
    ensures c.InTable() && after == LeopardDecoder.Encoding(c, data, size)
  {
    hide Fits, Leopard.Linear, Columnwise, Pow2, LeopardDecoder.Encoding;
  }

  lemma DataBack(c: LeopardFF8, data: seq<Shard>, left: seq<Shard>, after: seq<Shard>, size: nat)
    requires c.Valid() && LeopardDecoder.EncodedFrom(c, data, left) && ReedSolomon.SizeOf(left) == size
    requires LeopardDecoder.Restored(c, data, left, after, false) && LeopardDecoder.Rebuilt(c, left, after, false)
    ensures |after| == |left| && c.dataShards <= |left| && after[..c.dataShards] == data
    ensures after[c.dataShards..] == left[c.dataShards..]
  {
    hide Fits, Leopard.Linear, Columnwise, Pow2, LeopardDecoder.Answer, LeopardDecoder.Computes, Parity;
  }
}
