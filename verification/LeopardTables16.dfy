// initMul16LUT and the kernels of leopard.go: a field element is a byte of the first half of a
// block of 64 and the byte 32 places behind it, and products are read by halves.
module LeopardTables16 {

  import opened BitXor
  import opened Modular
  import opened Galois
  import opened LeopardField
  import opened Shards
  import opened Transform
  import opened ParityLaws
  import LeopardTables

  // ---------- Elements and their bytes ----------

  function Join(low: Byte, high: Byte): Ffe {
    low + 256 * high
  }

  function Low(e: Ffe): Byte {
    e % 256
  }

  function High(e: Ffe): Byte {
    e / 256
  }

  lemma {:induction false} XorScale(a: nat, b: nat, k: nat)
    ensures Xor(Pow2(k) * a, Pow2(k) * b) == Pow2(k) * Xor(a, b)
  {
    hide Xor, Pow2;
    if k == 0 {
      PowZero();
    } else {
      PowStep(k);
      XorScale(a, b, k - 1);
      XorDouble(Pow2(k - 1) * a, Pow2(k - 1) * b);
      Twice(k, a);
      Twice(k, b);
      Twice(k, Xor(a, b));
    }
  }

  lemma Twice(k: nat, a: nat)
    requires k > 0
    ensures Pow2(k) * a == 2 * (Pow2(k - 1) * a)
  {
  }

  // Exclusive or acts on the two bytes.
  lemma JoinAdd(a: Byte, b: Byte, c: Byte, d: Byte)
    ensures Join(a, b) == Xor(a, 256 * b)
    ensures Add16(Join(a, b), Join(c, d)) == Join(GalAdd(a, c), GalAdd(b, d))
  {
    hide Xor, Pow2;
    LeopardTables.PowersOfByte();
    LeopardTables.XorApart(a, b, 8);
    LeopardTables.XorApart(c, d, 8);
    XorExchange(a, 256 * b, c, 256 * d);
    XorScale(b, d, 8);
    LeopardTables.XorApart(GalAdd(a, c), GalAdd(b, d), 8);
  }

  lemma BytesOf(e: Ffe)
    ensures Join(Low(e), High(e)) == e
  {
  }

  lemma JoinBytes(a: Byte, b: Byte)
    ensures Low(Join(a, b)) == a && High(Join(a, b)) == b
  {
  }

  lemma BytesAdd(e: Ffe, f: Ffe)
    ensures Low(Add16(e, f)) == GalAdd(Low(e), Low(f)) && High(Add16(e, f)) == GalAdd(High(e), High(f))
  {
    hide *;
    BytesOf(e);
    BytesOf(f);
    JoinAdd(Low(e), High(e), Low(f), High(f));
    JoinBytes(GalAdd(Low(e), Low(f)), GalAdd(High(e), High(f)));
  }

  // ---------- The product table ----------

  // Digit number n of an element, written at its place.
  function Placed(x: nat, n: nat): (r: Ffe)
    requires x < 16 && n < 4
  {
    if n == 0 then x else if n == 1 then 16 * x else if n == 2 then 256 * x else 4096 * x
  }

  lemma Digits(i: Byte)
    ensures i / 16 < 16
    ensures i == Add16(Placed(i % 16, 0), Placed(i / 16, 1))
    ensures 256 * i == Add16(Placed(i % 16, 2), Placed(i / 16, 3))
  {
    hide Xor, Pow2;
    LeopardTables.PowersOfByte();
    LeopardTables.XorApart(i % 16, i / 16, 4);
    XorScale(i % 16, 16 * (i / 16), 8);
  }

  lemma DigitProducts(i: Byte, logM: Ffe)
    ensures i / 16 < 16
    ensures MulLog16(i, logM) == Add16(MulLog16(Placed(i % 16, 0), logM), MulLog16(Placed(i / 16, 1), logM))
    ensures MulLog16(256 * i, logM) == Add16(MulLog16(Placed(i % 16, 2), logM), MulLog16(Placed(i / 16, 3), logM))
  {
    hide MulLog16, Add16, Placed;
    Digits(i);
    MulLogLinear16(Placed(i % 16, 0), Placed(i / 16, 1), logM);
    MulLogLinear16(Placed(i % 16, 2), Placed(i / 16, 3), logM);
  }

  // The products of the digits at each of the four places.
  method DigitTable(logM: Ffe) returns (tmp: array<nat>)
    ensures fresh(tmp) && tmp.Length == 64
    ensures forall n: nat, x: nat | n < 4 && x < 16 :: tmp[n * 16 + x] == MulLog16(Placed(x, n), logM)
  {
    hide MulLog16;
    tmp := new nat[64](_ => 0);
    var shift := 1;
    for nibble := 0 to 4
      invariant shift == if nibble == 0 then 1 else if nibble == 1 then 16 else if nibble == 2 then 256
                         else if nibble == 3 then 4096 else 65536
      invariant forall n: nat, x: nat | n < nibble && x < 16 :: tmp[n * 16 + x] == MulLog16(Placed(x, n), logM)
    {
      for xnibble := 0 to 16
        invariant forall n: nat, x: nat | n < 4 && x < 16 && (n < nibble || (n == nibble && x < xnibble)) ::
          tmp[n * 16 + x] == MulLog16(Placed(x, n), logM)
      {
        assert xnibble * shift == Placed(xnibble, nibble);
        tmp[nibble * 16 + xnibble] := MulLog16(xnibble * shift, logM);
      }
      shift := shift * 16;
    }
  }

  method InitMul16LUT() returns (lo: array2<nat>, hi: array2<nat>)
    ensures fresh(lo) && lo.Length0 == 65536 && lo.Length1 == 256
    ensures fresh(hi) && hi.Length0 == 65536 && hi.Length1 == 256
    ensures forall logM: Ffe, i: Byte :: lo[logM, i] == MulLog16(i, logM) && hi[logM, i] == MulLog16(256 * i, logM)
  {
    hide MulLog16, Add16, Placed;
    lo := new nat[65536, 256]((_, _) => 0);
    hi := new nat[65536, 256]((_, _) => 0);
    for logM := 0 to 65536
      invariant forall l: Ffe, i: Byte | l < logM :: lo[l, i] == MulLog16(i, l) && hi[l, i] == MulLog16(256 * i, l)
    {
      var tmp := DigitTable(logM);
      for i := 0 to 256
        invariant forall n: nat, x: nat | n < 4 && x < 16 :: tmp[n * 16 + x] == MulLog16(Placed(x, n), logM)
        invariant forall l: Ffe, j: Byte | l < logM || (l == logM && j < i) ::
          lo[l, j] == MulLog16(j, l) && hi[l, j] == MulLog16(256 * j, l)
      {
        DigitProducts(i, logM);
        assert tmp[0 * 16 + i % 16] == MulLog16(Placed(i % 16, 0), logM);
        assert tmp[1 * 16 + i / 16] == MulLog16(Placed(i / 16, 1), logM);
        assert tmp[2 * 16 + i % 16] == MulLog16(Placed(i % 16, 2), logM);
        assert tmp[3 * 16 + i / 16] == MulLog16(Placed(i / 16, 3), logM);
        lo[logM, i] := Add16(tmp[i % 16], tmp[i / 16 + 16]);
        hi[logM, i] := Add16(tmp[i % 16 + 32], tmp[i / 16 + 48]);
      }
    }
  }

  ghost predicate ProductTables(lo: seq<Ffe>, hi: seq<Ffe>, logM: Ffe) {
    && |lo| == |hi| == 256
    && forall i: Byte :: lo[i] == MulLog16(i, logM) && hi[i] == MulLog16(256 * i, logM)
  }

  // Two lookups and a xor give the product of any element.
  lemma TablesMultiply(lo: seq<Ffe>, hi: seq<Ffe>, logM: Ffe, e: Ffe)
    requires ProductTables(lo, hi, logM)
    ensures Add16(lo[Low(e)], hi[High(e)]) == MulLog16(e, logM)
  {
    hide MulLog16, Add16;
    BytesOf(e);
    JoinAdd(Low(e), 0, 0, High(e));
    AddLaws(Low(e), 0, 0);
    AddLaws(High(e), 0, 0);
    MulLogLinear16(Low(e), 256 * High(e), logM);
  }

  // ---------- Products of shards ----------

  // Where the whole blocks of n bytes end.
  function Whole(n: nat): nat {
    n / 64 * 64
  }

  // Where the low byte of the element is that position p takes part in.
  function Base(p: nat): nat {
    p / 64 * 64 + p % 32
  }

  lemma BaseFits(p: nat, n: nat)
    requires p < Whole(n)
    ensures Base(p) + 32 < Whole(n) <= n
  {
    var q, b := n / 64, p / 64;
    assert n == 64 * q + n % 64 && p == 64 * b + p % 64;
    assert b < q;
  }

  function ElementAt(y: Shard, p: nat): Ffe
    requires p < Whole(|y|)
  {
    BaseFits(p, |y|);
    Join(y[Base(p)], y[Base(p) + 32])
  }

  function ByteAt(e: Ffe, p: nat): Byte {
    if p % 64 < 32 then Low(e) else High(e)
  }

  // The products in the whole blocks, and zeros behind them.
  function MulShard16(log: nat, y: Shard): (r: Shard)
    ensures |r| == |y|
  {
    seq(|y|, p requires 0 <= p < |y| =>
      if p < Whole(|y|) then ByteAt(MulLog16(ElementAt(y, p), log % 65536), p) else 0)
  }

  lemma MulShardAt(log: nat, y: Shard, p: nat)
    requires p < |y|
    ensures MulShard16(log, y)[p]
         == if p < Whole(|y|) then ByteAt(MulLog16(ElementAt(y, p), log % 65536), p) else 0
  {
  }

  lemma ElementAdd(x: Shard, y: Shard, p: nat)
    requires |x| == |y| && p < Whole(|y|)
    ensures ElementAt(Xor2(x, y), p) == Add16(ElementAt(x, p), ElementAt(y, p))
  {
    hide Add16, GalAdd, Join;
    BaseFits(p, |y|);
    JoinAdd(x[Base(p)], x[Base(p) + 32], y[Base(p)], y[Base(p) + 32]);
  }

  lemma ByteAdd(e: Ffe, f: Ffe, p: nat)
    ensures ByteAt(Add16(e, f), p) == GalAdd(ByteAt(e, p), ByteAt(f, p))
  {
    hide Add16, GalAdd, Low, High;
    BytesAdd(e, f);
  }

  lemma MulShardLinear16(log: nat, x: Shard, y: Shard)
    requires |x| == |y|
    ensures MulShard16(log, Xor2(x, y)) == Xor2(MulShard16(log, x), MulShard16(log, y))
  {
    hide MulLog16, Add16, GalAdd, ElementAt, ByteAt, MulShard16, Whole;
    forall p | 0 <= p < |x|
      ensures MulShard16(log, Xor2(x, y))[p] == Xor2(MulShard16(log, x), MulShard16(log, y))[p]
    {
      MulShardAt(log, x, p);
      MulShardAt(log, y, p);
      MulShardAt(log, Xor2(x, y), p);
      if p < Whole(|x|) {
        ElementAdd(x, y, p);
        MulLogLinear16(ElementAt(x, p), ElementAt(y, p), log % 65536);
        ByteAdd(MulLog16(ElementAt(x, p), log % 65536), MulLog16(ElementAt(y, p), log % 65536), p);
      } else {
        AddLaws(0, 0, 0);
      }
    }
  }

  lemma BaseShifts(lo: nat, p: nat)
    requires lo % 64 == 0
    ensures Base(lo + p) == lo + Base(p) && (lo + p) % 64 == p % 64
  {
    var q, r := lo / 64, p % 64;
    ModUnique(lo + p, q + p / 64, r, 64);
    CongShift(p, 2 * q, 32);
  }

  lemma WholeAll(n: nat)
    requires n % 64 == 0
    ensures Whole(n) == n
  {
  }

  lemma WholeAbove(n: nat, hi: nat)
    requires hi <= n && hi % 64 == 0
    ensures hi <= Whole(n)
  {
  }

  lemma CutAt(log: nat, y: Shard, lo: nat, hi: nat, p: nat)
    requires lo <= hi <= |y| && lo % 64 == 0 && hi % 64 == 0 && p < hi - lo
    ensures MulShard16(log, y[lo..hi])[p] == MulShard16(log, y)[lo + p]
  {
    hide MulLog16, Join, MulShard16, Whole, Base;
    WholeAll(hi - lo);
    WholeAbove(|y|, hi);
    MulShardAt(log, y[lo..hi], p);
    MulShardAt(log, y, lo + p);
    BaseFits(p, hi - lo);
    BaseFits(lo + p, |y|);
    BaseShifts(lo, p);
  }

  // In each block of 64 bytes, byte i is the low half and byte i + 32 the high half of an
  // element.
  lemma BlockElements(log: Ffe, y: Shard, off: nat, i: nat, e: Ffe)
    requires off % 64 == 0 && off + 64 <= |y| && i < 32
    requires e == y[off + i] as int + 256 * y[off + i + 32] as int
    ensures MulLog16(e, log)
         == MulShard16(log, y)[off + i] as int + 256 * MulShard16(log, y)[off + i + 32] as int
  {
    hide MulLog16, MulShard16, Whole, Base;
    InBlock(off, i, |y|);
    MulShardAt(log, y, off + i);
    MulShardAt(log, y, off + i + 32);
    BytesOf(MulLog16(ElementAt(y, off + i), log));
  }

  // The codec of width 16.
  function Leopard16(skew: seq<nat>): Leopard {
    Leopard(65535, skew, MulShard16)
  }

  // The transform theorems hold for the field of the 16-bit codec.
  lemma Leopard16Laws(skew: seq<nat>)
    ensures Leopard16(skew).Linear() && Columnwise(Leopard16(skew))
  {
    hide MulShard16, Xor2;
    var t := Leopard16(skew);
    forall log: nat, x: Shard, y: Shard | |x| == |y|
      ensures t.mul(log, Xor2(x, y)) == Xor2(t.mul(log, x), t.mul(log, y))
    {
      MulShardLinear16(log, x, y);
    }
    forall log: nat, y: Shard, lo: nat, hi: nat
      | lo <= hi <= |y| && lo % 64 == 0 && hi % 64 == 0 && hi <= |t.mul(log, y)|
      ensures t.mul(log, y[lo..hi]) == t.mul(log, y)[lo..hi]
    {
      forall p | 0 <= p < hi - lo ensures MulShard16(log, y[lo..hi])[p] == MulShard16(log, y)[lo..hi][p] {
        CutAt(log, y, lo, hi, p);
      }
    }
  }

  // ---------- Kernels ----------

  lemma InBlock(off: nat, i: nat, n: nat)
    requires off % 64 == 0 && off + 64 <= n && i < 32
    ensures off + 64 <= Whole(n) && Base(off + i) == Base(off + i + 32) == off + i
    ensures (off + i) % 64 < 32 && (off + i + 32) % 64 >= 32
  {
    WholeAbove(n, off + 64);
    var q := off / 64;
    ModUnique(off + i, q, i, 64);
    ModUnique(off + i + 32, q, i + 32, 64);
    ModUnique(off + i, 2 * q, i, 32);
    ModUnique(off + i + 32, 2 * q + 1, i, 32);
  }

  // The two bytes that a block gets at i.
  lemma BlockBytes(y: Shard, lo: seq<Ffe>, hi: seq<Ffe>, logM: Ffe, off: nat, i: nat)
    requires off % 64 == 0 && off + 64 <= |y| && i < 32 && ProductTables(lo, hi, logM)
    ensures var prod := Add16(lo[y[off + i]], hi[y[off + i + 32]]);
      MulShard16(logM, y)[off + i] == Low(prod) && MulShard16(logM, y)[off + i + 32] == High(prod)
  {
    hide MulLog16, MulShard16, Whole, Base, Add16, ProductTables, Low, High, Join;
    InBlock(off, i, |y|);
    MulShardAt(logM, y, off + i);
    MulShardAt(logM, y, off + i + 32);
    TablesLength(lo, hi, logM);
    JoinBytes(y[off + i], y[off + i + 32]);
    TablesMultiply(lo, hi, logM, Join(y[off + i], y[off + i + 32]));
  }

  lemma TablesLength(lo: seq<Ffe>, hi: seq<Ffe>, logM: Ffe)
    requires ProductTables(lo, hi, logM)
    ensures |lo| == |hi| == 256
  {
    hide MulLog16;
  }

  // refMul: x is overwritten.
  method RefMul16(x: array<Byte>, y: array<Byte>, logM: Ffe, lo: seq<Ffe>, hi: seq<Ffe>)
    requires x.Length == y.Length && x.Length % 64 == 0 && x != y && ProductTables(lo, hi, logM)
    modifies x
    ensures x[..] == MulShard16(logM, y[..])
  {
    hide MulLog16, MulShard16, Add16, ProductTables, Low, High;
    TablesLength(lo, hi, logM);
    ghost var goal := MulShard16(logM, y[..]);
    var off := 0;
    while off < x.Length
      invariant off % 64 == 0 && off <= x.Length
      invariant forall j | 0 <= j < off :: x[j] == goal[j]
    {
      for i := 0 to 32
        invariant forall j | 0 <= j < off + i :: x[j] == goal[j]
        invariant forall j | off + 32 <= j < off + 32 + i :: x[j] == goal[j]
      {
        BlockBytes(y[..], lo, hi, logM, off, i);
        var prod := Add16(lo[y[off + i]], hi[y[off + i + 32]]);
        x[off + i] := Low(prod);
        x[off + i + 32] := High(prod);
      }
      off := off + 64;
    }
  }

  // refMulAdd: whole blocks of 64 bytes; what is left of x after them stays.
  method RefMulAdd16(x: array<Byte>, y: array<Byte>, logM: Ffe, lo: seq<Ffe>, hi: seq<Ffe>)
    requires x.Length == y.Length && x != y && ProductTables(lo, hi, logM)
    modifies x
    ensures x[..] == Xor2(old(x[..]), MulShard16(logM, y[..]))
  {
    hide MulLog16, MulShard16, Add16, GalAdd, ProductTables, Low, High;
    TablesLength(lo, hi, logM);
    ghost var before := x[..];
    ghost var added := MulShard16(logM, y[..]);
    var off := 0;
    while x.Length - off >= 64
      invariant off % 64 == 0 && off <= x.Length
      invariant forall j | 0 <= j < off :: x[j] == GalAdd(before[j], added[j])
      invariant forall j | off <= j < x.Length :: x[j] == before[j]
    {
      for i := 0 to 32
        invariant forall j | 0 <= j < off + i || off + 32 <= j < off + 32 + i :: x[j] == GalAdd(before[j], added[j])
        invariant forall j | off + i <= j < off + 32 || off + 32 + i <= j < x.Length :: x[j] == before[j]
      {
        BlockBytes(y[..], lo, hi, logM, off, i);
        var prod := Add16(lo[y[off + i]], hi[y[off + i + 32]]);
        x[off + i] := GalAdd(x[off + i], Low(prod));
        x[off + i + 32] := GalAdd(x[off + i + 32], High(prod));
      }
      off := off + 64;
    }
    forall j | 0 <= j < x.Length ensures x[j] == Xor2(before, added)[j] {
      if j >= off {
        PastWhole(logM, y[..], off, j);
        AddLaws(before[j], 0, 0);
      }
    }
  }

  lemma PastWhole(log: nat, y: Shard, off: nat, j: nat)
    requires off % 64 == 0 && off <= j < |y| && |y| - off < 64
    ensures MulShard16(log, y)[j] == 0
  {
    hide *;
    MulShardAt(log, y, j);
    WholeEnds(|y|, off);
  }

  lemma WholeEnds(n: nat, off: nat)
    requires off % 64 == 0 && off <= n < off + 64
    ensures Whole(n) == off
  {
    ModUnique(n, off / 64, n - off, 64);
  }

  // fftDIT2 and ifftDIT2
  method FftKernel16(x: array<Byte>, y: array<Byte>, logM: Ffe, lo: seq<Ffe>, hi: seq<Ffe>)
    requires x.Length == y.Length && x != y && ProductTables(lo, hi, logM)
    modifies x, y
    ensures x[..] == Xor2(old(x[..]), MulShard16(logM, old(y[..])))
    ensures y[..] == Xor2(old(y[..]), x[..])
  {
    hide Xor2, MulShard16;
    RefMulAdd16(x, y, logM, lo, hi);
    LeopardTables.SliceXor(x, y);
  }

  method IfftKernel16(x: array<Byte>, y: array<Byte>, logM: Ffe, lo: seq<Ffe>, hi: seq<Ffe>)
    requires x.Length == y.Length && x != y && ProductTables(lo, hi, logM)
    modifies x, y
    ensures y[..] == Xor2(old(y[..]), old(x[..]))
    ensures x[..] == Xor2(old(x[..]), MulShard16(logM, y[..]))
  {
    hide Xor2, MulShard16;
    LeopardTables.SliceXor(x, y);
    RefMulAdd16(x, y, logM, lo, hi);
  }
}
