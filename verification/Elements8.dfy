// The field of the 8-bit codec, and the bytes of shards as its elements.
module Elements8 {

  import opened BitXor
  import opened Galois
  import opened LeopardField
  import opened LeopardTables
  import opened Shards
  import opened Transform
  import opened NovelBasis
  import opened Evaluation
  import opened SkewTable
  import CantorLaw

  // ---------- The field of the codec ----------

  ghost predicate ProductAt(n: Novel<Byte>, a: Byte, b: Byte) {
    && n.Add(a, b) == GalAdd(a, b) && n.At(b) == b
    && (b != 0 ==> MulLog8(a, Log8(b)) == n.Times(a, b))
  }

  // n adds and multiplies as the codec does.
  ghost predicate OfCodec(n: Novel<Byte>) {
    n.Ready() && n.order == 256 && n.zero == 0 && n.one == 1 && forall a: Byte, b: Byte :: ProductAt(n, a, b)
  }

  function Product8(a: Byte, b: Byte): Byte {
    ProductBound(a, b);
    Field8().Times(a, b)
  }

  lemma ProductBound(a: Byte, b: Byte)
    ensures Field8().Valid() && Field8().Order() == 256 && Field8().Times(a, b) < 256
  {
    hide *;
    Field8Valid();
    Field8().TimesCommutes(a, b);
  }

  lemma Product8Laws(a: Byte, b: Byte, c: Byte)
    ensures Product8(a, b) == Product8(b, a)
    ensures Product8(Product8(a, b), c) == Product8(a, Product8(b, c))
    ensures Product8(GalAdd(a, b), c) == GalAdd(Product8(a, c), Product8(b, c))
    ensures Product8(a, 1) == a && Product8(a, 0) == 0 && Product8(a, a) == GalAdd(a, a / 2)
    ensures Product8(a, b) == 0 ==> a == 0 || b == 0
    ensures b != 0 ==> MulLog8(a, Log8(b)) == Product8(a, b)
  {
    hide Field8, CantorField.Field.Times, CantorField.Field.Valid, CantorField.Field.Order, CantorField.Field.MulLog,
         CantorField.Field.Log, Xor;
    CantorLaw.Cantor8();
    Field8Valid();
    Field8().TimesCommutes(a, b);
    Field8().TimesAssociates(a, b, c);
    Field8().TimesDistributes(a, b, c);
    Field8().TimesOne(a);
    Field8().TimesZero(a);
    if Product8(a, b) == 0 {
      Field8().TimesNonzero(a, b);
    }
    if b != 0 {
      Field8().TimesIsMulLog(a, b);
    }
  }

  function Numbered(x: nat): Byte {
    if x < 256 then x else 0
  }

  lemma TheField() returns (n: Novel<Byte>)
    ensures OfCodec(n)
  {
    hide Product8, GalAdd, MulLog8, Log8;
    n := Novel(256, 0, 1, (a: Byte, b: Byte) => GalAdd(a, b), (a: Byte, b: Byte) => Product8(a, b), Numbered);
    forall a: Byte, b: Byte, c: Byte ensures n.Laws(a, b, c) {
      Product8Laws(a, b, c);
      AddLaws(a, b, c);
    }
    forall x: nat, y: nat | x < 256 && y < 256 ensures n.PointLaws(x, y) {
      Product8Laws(x, y, 0);
      SumOfNumbers(x, y);
    }
    forall a: Byte, b: Byte ensures ProductAt(n, a, b) {
      Product8Laws(a, b, 0);
    }
  }

  lemma SumOfNumbers(x: Byte, y: Byte)
    ensures Xor(x, y) == GalAdd(x, y) < 256
  {
  }

  lemma CodecReady(n: Novel<Byte>)
    requires OfCodec(n)
    ensures n.Ready() && n.order == 256 && n.zero == 0 && n.one == 1
  {
    hide Novel.Ready, ProductAt;
  }

  lemma CodecSum(n: Novel<Byte>, a: Byte, b: Byte)
    requires OfCodec(n)
    ensures n.Add(a, b) == GalAdd(a, b) && n.At(b) == b
  {
    hide Novel.Ready, MulLog8, Log8, GalAdd, Novel.Times;
    assert ProductAt(n, a, b);
  }

  lemma CodecProduct(n: Novel<Byte>, a: Byte, b: Byte)
    requires OfCodec(n) && b != 0
    ensures MulLog8(a, Log8(b)) == n.Times(a, b)
  {
    hide Novel.Ready, MulLog8, Log8, GalAdd, Novel.Times, Novel.Add, Novel.At;
    assert ProductAt(n, a, b);
  }

  // ---------- The skew table ----------

  // Entry for block number q of 2 * 2^b shards.
  ghost predicate EntryRight(skew: seq<nat>, q: nat, b: nat) {
    Place(q, b) < |skew| && 2 * q < 256 ==> skew[Place(q, b)] == Log8(2 * q)
  }

  ghost predicate SkewRight(skew: seq<nat>) {
    |skew| == 255 && forall q: nat, b: nat :: EntryRight(skew, q, b)
  }

  ghost predicate IsCodec(t: Leopard) {
    t.mul == MulShard && t.modulus == 255 && SkewRight(t.skew)
  }

  lemma SkewLength(t: Leopard)
    requires IsCodec(t)
    ensures |t.skew| == 255
  {
    hide EntryRight;
  }

  lemma LogRange(a: Byte)
    ensures Log8(a) == 255 <==> a == 0
  {
    hide CantorField.Field.Log, CantorField.Field.Valid, CantorField.Field.Order, Field8;
    Field8Valid();
    LogOfZero8();
    if a != 0 {
      Field8().ShiftOfLog(a);
    }
  }

  lemma LogOfZero8()
    ensures Log8(0) == 255
  {
    hide CantorField.Field.Valid, Field8;
    Field8Valid();
  }

  // ---------- Bytes ----------

  // Byte c of a shard.
  function ByteOf(c: nat): Shard -> Byte {
    (y: Shard) => if c < |y| then y[c] else 0
  }

  lemma ByteOfAt(c: nat, y: Shard)
    requires c < |y|
    ensures ByteOf(c)(y) == y[c]
  {
  }

  lemma TwiddleIs(t: Leopard, n: Novel<Byte>, s: nat, q: Byte, y: Shard, c: nat)
    requires t.mul == MulShard && t.modulus == 255 && OfCodec(n) && s < |t.skew| && t.skew[s] == Log8(q) && c < |y|
    ensures |t.Twiddle(s, y)| == |y| && t.Twiddle(s, y)[c] == n.Times(n.At(q), y[c])
  {
    hide Log8, MulLog8, OfCodec, Novel.Times, Novel.At, Novel.Ready;
    CodecReady(n);
    CodecSum(n, 0, q);
    LogRange(q);
    n.TimesLaws(q, y[c], y[c]);
    n.TimesLaws(y[c], y[c], y[c]);
    if q != 0 {
      CodecProduct(n, y[c], q);
    }
  }

  lemma EntryIs(t: Leopard, q: nat, b: nat)
    requires IsCodec(t) && Place(q, b) < |t.skew| && 2 * q < 256
    ensures t.skew[Place(q, b)] == Log8(2 * q) && t.mul == MulShard && t.modulus == 255
  {
    hide Place, Log8, MulShard;
    assert EntryRight(t.skew, q, b);
  }

  // The bytes of shards are read as the codec computes with them.
  lemma ReadsBytes(t: Leopard, n: Novel<Byte>, c: nat, size: nat)
    requires IsCodec(t) && OfCodec(n) && c < size
    ensures Reads(t, n, ByteOf(c), size)
  {
    hide OfCodec, IsCodec, Novel.Ready, Place, Leopard.Twiddle, Novel.Times, Novel.At, Novel.Add, GalAdd;
    CodecReady(n);
    SkewLength(t);
    forall x: Shard, y: Shard ensures SumReads(n, ByteOf(c), size, x, y) {
      if |x| == |y| == size {
        CodecSum(n, x[c], y[c]);
      }
    }
    forall q: nat, b: nat, y: Shard ensures TwiddleReads(t, n, ByteOf(c), size, q, b, y) {
      if 2 * q < n.order && Place(q, b) < |t.skew| && |y| == size {
        EntryIs(t, q, b);
        TwiddleIs(t, n, Place(q, b), 2 * q, y, c);
      }
    }
  }
}
