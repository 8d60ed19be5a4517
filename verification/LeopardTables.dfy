// initMul8LUT and the kernels of leopard8.go that multiply shards by the table.
module LeopardTables {

  import opened BitXor
  import opened Galois
  import opened LeopardField
  import opened Shards
  import opened Transform
  import opened ParityLaws

  lemma PowersOfByte()
    ensures Pow2(0) == 1 && Pow2(1) == 2 && Pow2(2) == 4 && Pow2(3) == 8
    ensures Pow2(4) == 16 && Pow2(5) == 32 && Pow2(6) == 64 && Pow2(7) == 128 && Pow2(8) == 256
  {
  }

  // ---------- The product table ----------

  lemma {:induction false} XorApart(a: nat, q: nat, k: nat)
    requires a < Pow2(k)
    ensures Xor(a, Pow2(k) * q) == a + Pow2(k) * q
  {
    hide *;
    if k == 0 {
      PowZero();
      XorZero(q);
    } else {
      PowStep(k);
      DoubleProduct(Pow2(k - 1), q);
      XorApart(a / 2, q, k - 1);
      LastBitApart(a, Pow2(k - 1) * q);
    }
  }

  lemma LastBitApart(a: nat, b: nat)
    requires Xor(a / 2, b) == a / 2 + b
    ensures Xor(a, 2 * b) == a + 2 * b
  {
    hide Xor;
    XorStep(a, 2 * b);
    SameBits(Xor(a, 2 * b), a + 2 * b);
  }

  lemma DoubleProduct(h: nat, q: nat)
    ensures 2 * h * q == 2 * (h * q)
  {
  }

  function HighNibble(i: Byte): (r: Byte)
    ensures r == i / 16 * 16
  {
    i - i % 16
  }

  // A byte is the combination of its nibbles.
  lemma Nibbles(i: Byte)
    ensures i == GalAdd(i % 16, HighNibble(i))
  {
    hide Xor;
    PowersOfByte();
    XorApart(i % 16, i / 16, 4);
  }

  lemma NibbleProducts(i: Byte, logM: Byte)
    ensures MulLog8(i, logM) == GalAdd(MulLog8(i % 16, logM), MulLog8(HighNibble(i), logM))
  {
    hide MulLog8, GalAdd;
    Nibbles(i);
    MulLogLinear8(i % 16, HighNibble(i), logM);
  }

  // initMul8LUT: the product of every byte, from the products of its nibbles. The two upper
  // nibbles of tmp are shifted out of the byte.
  method InitMul8LUT() returns (mul8LUTs: array2<Byte>)
    ensures fresh(mul8LUTs) && mul8LUTs.Length0 == mul8LUTs.Length1 == 256
    ensures forall logM: Byte, i: Byte :: mul8LUTs[logM, i] == MulLog8(i, logM)
  {
    hide MulLog8, GalAdd, Pow2;
    mul8LUTs := new Byte[256, 256]((_, _) => 0);
    for logM := 0 to 256
      invariant forall l: Byte, i: Byte | l < logM :: mul8LUTs[l, i] == MulLog8(i, l)
    {
      var tmp := NibbleProductTable(logM);
      for i := 0 to 256
        invariant forall x | 0 <= x < 16 :: tmp[x] == MulLog8(x, logM) && tmp[x + 16] == MulLog8(x * 16, logM)
        invariant forall l: Byte, j: Byte | l < logM || (l == logM && j < i) :: mul8LUTs[l, j] == MulLog8(j, l)
      {
        NibbleProducts(i, logM);
        assert tmp[i % 16] == MulLog8(i % 16, logM) && tmp[i / 16 + 16] == MulLog8(HighNibble(i), logM);
        mul8LUTs[logM, i] := GalAdd(tmp[i % 16], tmp[i / 16 + 16]);
      }
    }
  }

  // The products of one nibble, written at its place and cut to a byte.
  method NibbleRow(logM: Byte, tmp: array<Byte>, nibble: nat, scale: nat)
    requires tmp.Length == 64 && nibble < 4
    modifies tmp
    ensures forall x | nibble * 16 <= x < nibble * 16 + 16 :: tmp[x] == MulLog8((x - nibble * 16) * scale % 256, logM)
    ensures forall x | 0 <= x < 64 && !(nibble * 16 <= x < nibble * 16 + 16) :: tmp[x] == old(tmp[x])
  {
    hide MulLog8;
    for xnibble := 0 to 16
      invariant forall x | 0 <= x < 64 && !(nibble * 16 <= x < nibble * 16 + xnibble) :: tmp[x] == old(tmp[x])
      invariant forall x | nibble * 16 <= x < nibble * 16 + xnibble ::
        tmp[x] == MulLog8((x - nibble * 16) * scale % 256, logM)
    {
      tmp[nibble * 16 + xnibble] := MulLog8(xnibble * scale % 256, logM);
    }
  }

  lemma InByte(x: nat, scale: nat)
    requires x < 16 && (scale == 1 || scale == 16)
    ensures x * scale % 256 == if scale == 1 then x else x * 16
  {
  }

  method NibbleProductTable(logM: Byte) returns (tmp: array<Byte>)
    ensures fresh(tmp) && tmp.Length == 64
    ensures forall x | 0 <= x < 16 :: tmp[x] == MulLog8(x, logM) && tmp[x + 16] == MulLog8(x * 16, logM)
  {
    hide MulLog8;
    tmp := new Byte[64](_ => 0);
    var shift: nat := 1;
    for nibble := 0 to 4
      invariant nibble == 0 ==> shift == 1
      invariant nibble == 1 ==> shift == 16
      invariant nibble > 0 ==> forall x | 0 <= x < 16 :: tmp[x] == MulLog8(x, logM)
      invariant nibble > 1 ==> forall x | 16 <= x < 32 :: tmp[x] == MulLog8((x - 16) * 16, logM)
    {
      NibbleRow(logM, tmp, nibble, shift);
      forall x | nibble * 16 <= x < nibble * 16 + 16 && nibble < 2
        ensures tmp[x] == MulLog8(if nibble == 0 then x else (x - 16) * 16, logM)
      {
        InByte(x - nibble * 16, shift);
      }
      shift := shift * 16;
    }
    forall x | 0 <= x < 16 ensures tmp[x + 16] == MulLog8(x * 16, logM) {
      assert tmp[x + 16] == MulLog8((x + 16 - 16) * 16, logM);
    }
  }

  // ---------- Kernels ----------

  function MulShard(log: nat, y: Shard): (r: Shard)
    ensures |r| == |y|
  {
    seq(|y|, i requires 0 <= i < |y| => MulLog8(y[i], log % 256))
  }

  ghost predicate ProductTable(lut: seq<Byte>, logM: Byte) {
    |lut| == 256 && forall i: Byte :: lut[i] == MulLog8(i, logM)
  }

  // refMul8: blocks of 64 bytes.
  method RefMul8(x: array<Byte>, y: array<Byte>, logM: Byte, lut: seq<Byte>)
    requires x.Length == y.Length && x.Length % 64 == 0 && x != y && ProductTable(lut, logM)
    modifies x
    ensures x[..] == MulShard(logM, y[..])
  {
    hide MulLog8;
    var off := 0;
    while off < x.Length
      invariant off % 64 == 0 && off <= x.Length
      invariant forall j | 0 <= j < off :: x[j] == MulLog8(y[j], logM)
    {
      for i := 0 to 64
        invariant forall j | 0 <= j < off + i :: x[j] == MulLog8(y[j], logM)
      {
        x[off + i] := lut[y[off + i]];
      }
      off := off + 64;
    }
  }

  // The products in the whole blocks of 64 bytes, and zeros behind them.
  function MulBlocks(log: nat, y: Shard): (r: Shard)
    ensures |r| == |y|
  {
    seq(|y|, i requires 0 <= i < |y| => if i < |y| / 64 * 64 then MulLog8(y[i], log % 256) else 0)
  }

  // In shards of the codec there is nothing behind the whole blocks.
  lemma WholeBlocks(log: nat, y: Shard)
    requires |y| % 64 == 0
    ensures MulBlocks(log, y) == MulShard(log, y)
  {
    hide MulLog8;
  }

  // refMulAdd8: whole blocks of 64 bytes; what is left of x after them stays.
  method RefMulAdd8(x: array<Byte>, y: array<Byte>, logM: Byte, lut: seq<Byte>)
    requires x.Length == y.Length && x != y && ProductTable(lut, logM)
    modifies x
    ensures x[..] == Xor2(old(x[..]), MulBlocks(logM, y[..]))
    ensures x.Length % 64 == 0 ==> x[..] == Xor2(old(x[..]), MulShard(logM, y[..]))
  {
    hide MulLog8, GalAdd;
    ghost var before := x[..];
    var off := 0;
    while x.Length - off >= 64
      invariant off % 64 == 0 && off <= x.Length
      invariant forall j | 0 <= j < off :: x[j] == GalAdd(before[j], MulLog8(y[j], logM))
      invariant forall j | off <= j < x.Length :: x[j] == before[j]
    {
      for i := 0 to 64
        invariant forall j | 0 <= j < off + i :: x[j] == GalAdd(before[j], MulLog8(y[j], logM))
        invariant forall j | off + i <= j < x.Length :: x[j] == before[j]
      {
        x[off + i] := GalAdd(x[off + i], lut[y[off + i]]);
      }
      off := off + 64;
    }
    assert off == x.Length / 64 * 64;
    forall j | 0 <= j < x.Length ensures x[j] == Xor2(before, MulBlocks(logM, y[..]))[j] {
      AddLaws(before[j], 0, 0);
    }
    if x.Length % 64 == 0 {
      WholeBlocks(logM, y[..]);
    }
  }

  // sliceXor
  method SliceXor(source: array<Byte>, dest: array<Byte>)
    requires source.Length == dest.Length && source != dest
    modifies dest
    ensures dest[..] == Xor2(old(dest[..]), source[..])
  {
    hide GalAdd;
    ghost var before := dest[..];
    for i := 0 to dest.Length
      invariant forall j | 0 <= j < i :: dest[j] == GalAdd(before[j], source[j])
      invariant forall j | i <= j < dest.Length :: dest[j] == before[j]
    {
      dest[i] := GalAdd(dest[i], source[i]);
    }
  }

  // fftDIT28 and ifftDIT28 on buffers of any length.
  method FftKernel8(x: array<Byte>, y: array<Byte>, logM: Byte, lut: seq<Byte>)
    requires x.Length == y.Length && x != y && ProductTable(lut, logM)
    modifies x, y
    ensures x[..] == Xor2(old(x[..]), MulBlocks(logM, old(y[..])))
    ensures x.Length % 64 == 0 ==> x[..] == Xor2(old(x[..]), MulShard(logM, old(y[..])))
    ensures y[..] == Xor2(old(y[..]), x[..])
  {
    hide Xor2, MulBlocks, MulShard;
    RefMulAdd8(x, y, logM, lut);
    SliceXor(x, y);
  }

  method IfftKernel8(x: array<Byte>, y: array<Byte>, logM: Byte, lut: seq<Byte>)
    requires x.Length == y.Length && x != y && ProductTable(lut, logM)
    modifies x, y
    ensures y[..] == Xor2(old(y[..]), old(x[..]))
    ensures x[..] == Xor2(old(x[..]), MulBlocks(logM, y[..]))
    ensures x.Length % 64 == 0 ==> x[..] == Xor2(old(x[..]), MulShard(logM, y[..]))
  {
    hide Xor2, MulBlocks, MulShard;
    SliceXor(x, y);
    RefMulAdd8(x, y, logM, lut);
  }

  // ---------- The codec's parameters ----------

  function Leopard8(skew: seq<nat>): Leopard {
    Leopard(255, skew, MulShard)
  }

  lemma MulShardLinear(log: nat, x: Shard, y: Shard)
    requires |x| == |y|
    ensures MulShard(log, Xor2(x, y)) == Xor2(MulShard(log, x), MulShard(log, y))
  {
    hide MulLog8, GalAdd;
    forall i | 0 <= i < |x| ensures MulShard(log, Xor2(x, y))[i] == Xor2(MulShard(log, x), MulShard(log, y))[i] {
      MulLogLinear8(x[i], y[i], log % 256);
    }
  }

  // The transform theorems hold for the field of the 8-bit codec.
  lemma Leopard8Laws(skew: seq<nat>)
    ensures Leopard8(skew).Linear() && Columnwise(Leopard8(skew))
  {
    hide MulLog8, Xor2;
    var t := Leopard8(skew);
    forall log: nat, x: Shard, y: Shard | |x| == |y|
      ensures t.mul(log, Xor2(x, y)) == Xor2(t.mul(log, x), t.mul(log, y))
    {
      MulShardLinear(log, x, y);
    }
    forall log: nat, y: Shard, lo: nat, hi: nat | lo <= hi <= |y| && hi <= |t.mul(log, y)|
      ensures t.mul(log, y[lo..hi]) == t.mul(log, y)[lo..hi]
    {
      assert MulShard(log, y[lo..hi]) == MulShard(log, y)[lo..hi];
    }
  }

  // Scaling a shard by the logarithm k and then by modulus8 - k restores it.
  lemma ShardRestored(y: Shard, k: Byte)
    ensures MulShard(255 - k, MulShard(k, y)) == y
  {
    hide MulLog8;
    forall i | 0 <= i < |y| ensures MulShard(255 - k, MulShard(k, y))[i] == y[i] {
      ScalingRestores8(y[i], k);
    }
  }
}
