// The 16-bit codec from its tables to encoded shards, any dataShards of which determine the data.
module LeopardRoundTrip16 {

  import opened Wrappers
  import opened BitXor
  import opened LeopardField
  import opened LeopardTables16
  import opened Shards
  import opened Transform
  import opened LeopardEncode
  import opened LeopardCodec
  import opened LeopardCodec16
  import opened NovelBasis
  import opened Evaluation
  import opened Elements16
  import opened AnyShards
  import CantorLaw
  import SkewTable
  import Words

  // ---------- The start of the codec ----------

  // The skew table of initFFTSkew, the constructor, and Encode.
  method EncodeFresh16(dataShards: nat, parityShards: nat, shards: array<Shard>, size: nat) returns (c: LeopardFF16)
    requires dataShards > 0 && parityShards > 0 && Pow2(BitLength(parityShards - 1)) + dataShards <= 65536
    requires shards.Length == dataShards + parityShards && Uniform(shards[..], size) && size > 0 && size % 64 == 0
    modifies shards
    ensures c.Valid() && c.dataShards == dataShards && c.parityShards == parityShards && IsCodec16(c.t)
    ensures Encodes(c.t, old(shards[..dataShards]), c.n, 16, parityShards, size)
    ensures shards[..] == Encoded(c.t, old(shards[..dataShards]), c.n, 16, parityShards, size)
  {
    hide *;
    CantorLaw.Cantor16();
    var fftSkew := SkewTable.InitFFTSkew(Field16());
    var t := Leopard16(fftSkew[..]);
    Codec16FromTable(fftSkew[..]);
    CeilPow2(parityShards);
    var made := NewFF16(t, dataShards, parityShards);
    c := made.value;
    ghost var data := shards[..dataShards];
    UniformSplit(shards[..], dataShards, size);
    CodecEncodes(c, data, size);
    VerdictOk(c, shards[..], size);
    var r := c.Encode(shards);
    WholeShards(c, data, shards[..], size);
  }

  // The counts fit the table.
  lemma CodecEncodes(c: LeopardFF16, data: seq<Shard>, size: nat)
    requires c.Valid() && IsCodec16(c.t) && |data| == c.dataShards && Uniform(data, size)
    requires Pow2(BitLength(c.parityShards - 1)) + c.dataShards <= 65536
    ensures c.InTable() && Encodes(c.t, data, c.n, 16, c.parityShards, size)
  {
    hide Fits, Leopard.Linear, Uniform, IsCodec16;
    CantorField.EitherWidth();
    Skew16Length(c.t);
    CeilPow2(c.parityShards);
    FitsExactly(c.n, 16, c.dataShards);
    ExponentBelow(c.n, 16);
  }

  lemma ExponentBelow(n: nat, w: nat)
    requires Pow2(n) <= Pow2(w)
    ensures n <= w
  {
    hide Pow2;
    if n > w {
      Words.PowRises(w, n);
    }
  }

  lemma VerdictOk(c: LeopardFF16, shards: seq<Shard>, size: nat)
    requires |shards| == c.dataShards + c.parityShards && shards != [] && size > 0 && Uniform(shards, size)
    requires size % 64 == 0
    ensures c.Verdict(shards) == Ok(()) && ReedSolomon.SizeOf(shards) == size
  {
    SameSize(shards, size);
  }

  // What Encode leaves.
  lemma WholeShards(c: LeopardFF16, data: seq<Shard>, whole: seq<Shard>, size: nat)
    requires c.Valid() && c.InTable() && |whole| == c.dataShards + c.parityShards
    requires Encodes(c.t, data, c.n, 16, c.parityShards, size)
    requires |data| == c.dataShards && whole[..c.dataShards] == data && c.Matches(whole)
    requires ReedSolomon.SizeOf(whole) == size
    ensures whole == Encoded(c.t, data, c.n, 16, c.parityShards, size)
  {
    hide Encodes, Fits, Leopard.Linear, Parity, Pow2, ReedSolomon.SizeOf;
    assert whole == whole[..c.dataShards] + whole[c.dataShards..];
  }

  // ---------- What the shards hold ----------

  // Row i of a transform holds the value at position i of its block in every element.
  lemma FftEvaluates16(t: Leopard, n: Novel<Ffe>, w: seq<Shard>, k: nat, q: nat, size: nat, p: nat, i: nat)
    requires IsCodec16(t) && OfCodec16(n) && |w| == Pow2(k) && Start(q + 1, k) <= 65536 && Uniform(w, size)
    requires p < Whole(size) && i < |w|
    ensures |t.skew| == 65535 && Start(q, k) + |w| <= 65536
    ensures ElementOf(p)(t.Fft(w, k, Start(q, k))[i]) == n.Eval(Column(w, ElementOf(p)), k, Start(q, k) + i)
  {
    hide *;
    ReadsElements(t, n, p, size);
    Codec16Ready(n);
    FftEvaluates(t, n, ElementOf(p), size, w, k, q, i);
  }

  // Whatever shards are lost after encoding, the data can be told from any dataShards that are
  // left.
  lemma AnyShardsDetermine16(t: Leopard, data: seq<Shard>, data': seq<Shard>, n: nat, k: nat, parityShards: nat,
                             size: nat, kept: set<nat>)
    requires IsCodec16(t) && |data| == |data'| <= |kept| && size % 64 == 0
    requires Encodes(t, data, n, k, parityShards, size) && Encodes(t, data', n, k, parityShards, size)
    requires Agree(t, data, data', n, k, parityShards, size, kept)
    ensures data == data'
  {
    hide *;
    EncodesParts(t, data, n, k, parityShards, size);
    EncodesParts(t, data', n, k, parityShards, size);
    var f := TheField16();
    forall p | 0 <= p < Whole(size)
      ensures forall i | 0 <= i < |data| :: ElementOf(p)(data[i]) == ElementOf(p)(data'[i])
    {
      ReadsElements(t, f, p, size);
      AnyDetermine(t, f, ElementOf(p), data, data', n, k, parityShards, size, kept);
    }
    forall i | 0 <= i < |data| ensures data[i] == data'[i] {
      UniformEach(data, size, i);
      UniformEach(data', size, i);
      SameElements(data[i], data'[i]);
    }
  }

  // The elements of a shard determine it.
  lemma SameElements(x: Shard, y: Shard)
    requires |x| == |y| && |x| % 64 == 0 && forall p | 0 <= p < Whole(|x|) :: ElementOf(p)(x) == ElementOf(p)(y)
    ensures x == y
  {
    hide Whole, Base, Join, Low, High, ElementOf;
    WholeAll(|x|);
    forall p | 0 <= p < |x| ensures x[p] == y[p] {
      BaseFits(p, |x|);
      BaseIs(p);
      ElementOfAt(p, x);
      ElementOfAt(p, y);
      JoinBytes(x[Base(p)], x[Base(p) + 32]);
      JoinBytes(y[Base(p)], y[Base(p) + 32]);
    }
  }

  lemma BaseIs(p: nat)
    ensures p == if p % 64 < 32 then Base(p) else Base(p) + 32
  {
  }
}
