// Encode and Verify of the 16-bit Leopard codec, which takes the shards in one piece.
module LeopardCodec16 {

  import opened Wrappers
  import opened BitXor
  import opened Shards
  import opened Transform
  import opened LeopardEncode
  import opened LeopardCodec

  class LeopardFF16 {
    const t: Leopard
    const dataShards: nat
    const parityShards: nat
    const n: nat
    const work: array<Shard>
    const scratch: array<Shard>

    // The two halves of the pooled buffers may hold anything.
    ghost predicate Valid()
      reads this
    {
      && dataShards > 0 && parityShards > 0 && n == BitLength(parityShards - 1) && t.Linear()
      && work != scratch && work.Length == scratch.Length == Pow2(n)
    }

    ghost predicate InTable() {
      Fits(Pow2(n), dataShards, Pow2(n), |t.skew| + 1)
    }

    constructor (t: Leopard, dataShards: nat, parityShards: nat)
      requires dataShards > 0 && parityShards > 0 && t.Linear()
      ensures Valid() && fresh(work) && fresh(scratch)
      ensures this.t == t && this.dataShards == dataShards && this.parityShards == parityShards
    {
      this.t := t;
      this.dataShards := dataShards;
      this.parityShards := parityShards;
      n := BitLength(parityShards - 1);
      work := new Shard[Pow2(BitLength(parityShards - 1))](_ => []);
      scratch := new Shard[Pow2(BitLength(parityShards - 1))](_ => []);
    }

    ghost function Verdict(shards: seq<Shard>): Outcome<()> {
      EncodeVerdict(shards, dataShards + parityShards)
    }

    // The parity shards are the parity of the data shards.
    ghost predicate Matches(shards: seq<Shard>)
      requires Valid() && InTable() && |shards| == dataShards + parityShards
      reads this
    {
      CeilPow2(parityShards);
      shards[dataShards..] == Parity(t, shards[..dataShards], n, parityShards, ReedSolomon.SizeOf(shards))
    }

    method Encode(shards: array<Shard>) returns (r: Outcome<()>)
      requires Valid() && shards != work && shards != scratch && (Verdict(shards[..]).Ok? ==> InTable())
      modifies shards, work, scratch
      ensures r == old(Verdict(shards[..]))
      ensures r.Err? ==> shards[..] == old(shards[..])
      ensures r.Ok? ==> shards[..dataShards] == old(shards[..dataShards]) && Matches(shards[..])
      ensures r.Ok? ==> ReedSolomon.SizeOf(shards[..]) == old(ReedSolomon.SizeOf(shards[..]))
    {
      hide Leopard.Linear, Pow2, Fits, Parity;
      if shards.Length != dataShards + parityShards {
        return Err(ReedSolomon.TooFewShards);
      }
      var check := ReedSolomon.CheckShards(shards, false);
      if check.Err? {
        return Err(check.error);
      }
      var size := check.value;
      if size % 64 != 0 {
        return Err(ReedSolomon.InvalidShardSize);
      }
      EncodeWhole(shards, size);
      SameSize(shards[..], size);
      return Ok(());
    }

    method EncodeWhole(shards: array<Shard>, size: nat)
      requires Valid() && InTable() && shards != work && shards != scratch && shards.Length == dataShards + parityShards
      requires size > 0 && Uniform(shards[..], size)
      modifies shards, work, scratch
      ensures Uniform(shards[..], size) && parityShards <= Pow2(n)
      ensures shards[..dataShards] == old(shards[..dataShards])
      ensures shards[dataShards..] == Parity(t, old(shards[..dataShards]), n, parityShards, size)
    {
      hide Leopard.Linear, Pow2, Fits, Parity;
      ghost var data := shards[..dataShards];
      CeilPow2(parityShards);
      UniformParts(shards[..], dataShards, size);
      TakeRows(size);
      EncodeBlock(t, shards[..dataShards], work, scratch, parityShards, work.Length, n, size);
      PutRows(shards);
      assert shards[..dataShards] == data;
      assert shards[dataShards..] == work[..parityShards];
      UniformWhole(shards[..], dataShards, size, work[..], parityShards);
    }

    method TakeRows(size: nat)
      requires Valid()
      modifies work, scratch
      ensures Uniform(work[..], size) && Uniform(scratch[..], size)
    {
      hide Leopard.Linear, Pow2;
      for i := 0 to work.Length
        invariant forall j | 0 <= j < i :: |work[j]| == |scratch[j]| == size
      {
        work[i] := Resize(work[i], size);
        scratch[i] := Resize(scratch[i], size);
      }
    }

    method PutRows(shards: array<Shard>)
      requires Valid() && shards != work && shards.Length == dataShards + parityShards && parityShards <= Pow2(n)
      modifies shards
      ensures forall j | 0 <= j < dataShards :: shards[j] == old(shards[j])
      ensures forall j | 0 <= j < parityShards :: shards[dataShards + j] == work[j]
    {
      hide Leopard.Linear, Pow2;
      for i := 0 to parityShards
        invariant forall j | 0 <= j < dataShards :: shards[j] == old(shards[j])
        invariant forall j | 0 <= j < i :: shards[dataShards + j] == work[j]
      {
        shards[dataShards + i] := work[i];
      }
    }

    // Verify encodes the data again, beside the shards, and compares.
    method Verify(shards: array<Shard>) returns (r: Outcome<bool>)
      requires Valid() && shards != work && shards != scratch && (Verdict(shards[..]).Ok? ==> InTable())
      modifies work, scratch
      ensures r.Ok? <==> Verdict(shards[..]).Ok?
      ensures r.Err? ==> r.error == Verdict(shards[..]).error
      ensures r.Ok? ==> (r.value <==> Matches(shards[..]))
      ensures shards[..] == old(shards[..])
    {
      hide Leopard.Linear, Pow2, Fits, Parity;
      if shards.Length != dataShards + parityShards {
        return Err(ReedSolomon.TooFewShards);
      }
      var check := ReedSolomon.CheckShards(shards, false);
      if check.Err? {
        return Err(check.error);
      }
      var size := |shards[0]|;
      var outputs: array<Shard> := new Shard[shards.Length](i reads shards requires 0 <= i < shards.Length =>
        if i < dataShards then shards[i] else Clear(size));
      forall i | 0 <= i < shards.Length ensures |shards[..][i]| == size && |outputs[..][i]| == size {
        assert |shards[..][0]| == |shards[..][i]| == ReedSolomon.SizeOf(shards[..]);
        assert outputs[i] == if i < dataShards then shards[i] else Clear(size);
      }
      SameSize(shards[..], size);
      SameSize(outputs[..], size);
      assert outputs[..dataShards] == shards[..dataShards];
      var re := Encode(outputs);
      if re.Err? {
        return Err(re.error);
      }
      var same := SameFrom(outputs, shards, dataShards);
      return Ok(same);
    }
  }

  // newFF16
  method NewFF16(t: Leopard, dataShards: int, parityShards: int) returns (r: Outcome<LeopardFF16>)
    requires t.Linear()
    ensures dataShards <= 0 || parityShards <= 0 ==> r == Err(ReedSolomon.InvShardNum)
    ensures dataShards > 0 && parityShards > 0 && dataShards + parityShards > 65536 ==>
      r == Err(ReedSolomon.MaxShardNum)
    ensures dataShards > 0 && parityShards > 0 && dataShards + parityShards <= 65536 ==>
      && r.Ok? && fresh(r.value) && r.value.Valid() && fresh(r.value.work) && fresh(r.value.scratch)
      && r.value.t == t && r.value.dataShards == dataShards && r.value.parityShards == parityShards
  {
    hide Leopard.Linear;
    if dataShards <= 0 || parityShards <= 0 {
      return Err(ReedSolomon.InvShardNum);
    }
    if dataShards + parityShards > 65536 {
      return Err(ReedSolomon.MaxShardNum);
    }
    var c := new LeopardFF16(t, dataShards, parityShards);
    return Ok(c);
  }

  lemma UniformParts(shards: seq<Shard>, d: nat, size: nat)
    requires d <= |shards| && Uniform(shards, size)
    ensures Uniform(shards[..d], size)
  {
  }

  lemma UniformWhole(shards: seq<Shard>, d: nat, size: nat, work: seq<Shard>, p: nat)
    requires d + p == |shards| && p <= |work| && Uniform(shards[..d], size) && Uniform(work, size)
    requires shards[d..] == work[..p]
    ensures Uniform(shards, size)
  {
    forall i | 0 <= i < |shards| ensures |shards[i]| == size {
      if i < d {
        assert shards[i] == shards[..d][i];
      } else {
        assert shards[i] == shards[d..][i - d];
      }
    }
  }
}
