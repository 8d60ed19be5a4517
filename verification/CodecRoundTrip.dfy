// Encoding with the matrix codec, and what is there again after the loss of shards.
module CodecRoundTrip {

  import opened Wrappers
  import opened LinearAlgebra
  import opened CodingMatrix
  import opened ReedSolomon

  // The start of the codec, and Encode.
  method EncodeFresh(dataShards: nat, parityShards: nat, perRound: nat, shards: array<Shard>, ghost size: nat)
    returns (c: Codec)
    requires 0 < dataShards && 0 < parityShards && dataShards + parityShards <= 256 && perRound > 0 && size > 0
    requires shards.Length == dataShards + parityShards && IsGrid(shards[..], shards.Length, size)
    modifies shards
    ensures c.Valid() && fresh(c.tree) && fresh(c.tree.root) && fresh(c.tree.root.Repr)
    ensures c.dataShards == dataShards && c.parityShards == parityShards
    ensures OnlyBuilt(c.m, dataShards, dataShards + parityShards)
    ensures shards[..] == Product(c.m, old(shards[..dataShards]), size)
  {
    hide IsCodingMatrix, OnlyBuilt, CacheSound, InversionTree.Tree.Valid, Combine;
    ghost var before := shards[..];
    c := new Codec(dataShards, parityShards, perRound);
    WholeShape(before, size);
    var r := c.Encode(shards);
    assert before[..dataShards] == old(shards[..dataShards]);
  }

  lemma WholeShape(shards: seq<Shard>, size: nat)
    requires shards != [] && size > 0 && IsGrid(shards, |shards|, size)
    ensures Consistent(shards, false) && SizeOf(shards) == size
  {
    assert |shards[0]| == size;
  }

  // Whatever shards are lost after encoding, up to parityShards of them, those asked for are
  // back: all of them or the data.
  method BringBack(c: Codec, shards: array<Shard>, dataOnly: bool, ghost data: Grid, ghost size: nat,
                   ghost lost: set<nat>)
    returns (r: Outcome<()>)
    requires c.Valid() && shards !in c.tree.root.Repr && shards.Length == c.totalShards
    requires IsGrid(data, c.dataShards, size) && size > 0 && |lost| <= c.parityShards
    requires forall i | 0 <= i < shards.Length :: shards[i] == if i in lost then [] else Product(c.m, data, size)[i]
    modifies shards, c.tree.root.Repr
    ensures c.Valid() && r == Ok(())
    ensures forall i | 0 <= i < shards.Length ::
      shards[i] == if dataOnly && i >= c.dataShards && i in lost then [] else Product(c.m, data, size)[i]
  {
    hide IsBuilt, CacheSound, InversionTree.Tree.Valid, Combine, Verdict, OneSize, Held;
    CodingShape(c.m, c.dataShards, c.totalShards);
    hide IsCodingMatrix;
    ghost var before := shards[..];
    LeftShape(before, Product(c.m, data, size), lost, size);
    r := c.Reconstruct(shards, dataOnly, data);
  }
}
