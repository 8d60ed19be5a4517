// The field of the 16-bit codec, and the elements that pairs of bytes of a shard stand for.
module Elements16 {

  import opened BitXor
  import opened LeopardField
  import opened LeopardTables16
  import opened Shards
  import opened Transform
  import opened NovelBasis
  import opened Evaluation
  import opened SkewTable
  import CantorLaw

  // ---------- The field of the codec ----------

  ghost predicate ProductAt(n: Novel<Ffe>, a: Ffe, b: Ffe) {
    && n.Add(a, b) == Add16(a, b) && n.At(b) == b
    && (b != 0 ==> MulLog16(a, Log16(b)) == n.Times(a, b))
  }

  // n adds and multiplies as the codec does.
  ghost predicate OfCodec16(n: Novel<Ffe>) {
    n.Ready() && n.order == 65536 && n.zero == 0 && n.one == 1 && forall a: Ffe, b: Ffe :: ProductAt(n, a, b)
  }

  function Product16(a: Ffe, b: Ffe): Ffe {
    ProductBound(a, b);
    Field16().Times(a, b)
  }

  lemma ProductBound(a: Ffe, b: Ffe)
    ensures Field16().Valid() && Field16().Order() == 65536 && Field16().Times(a, b) < 65536
  {
    hide *;
    Field16Valid();
    Field16().TimesCommutes(a, b);
  }

  lemma Product16Laws(a: Ffe, b: Ffe, c: Ffe)
    ensures Product16(a, b) == Product16(b, a)
    ensures Product16(Product16(a, b), c) == Product16(a, Product16(b, c))
    ensures Product16(Add16(a, b), c) == Add16(Product16(a, c), Product16(b, c))
    ensures Product16(a, 1) == a && Product16(a, 0) == 0 && Product16(a, a) == Add16(a, a / 2)
    ensures Product16(a, b) == 0 ==> a == 0 || b == 0
    ensures b != 0 ==> MulLog16(a, Log16(b)) == Product16(a, b)
  {
    hide Field16, CantorField.Field.Times, CantorField.Field.Valid, CantorField.Field.Order, CantorField.Field.MulLog,
         CantorField.Field.Log, Xor;
    CantorLaw.Cantor16();
    Field16Valid();
    Field16().TimesCommutes(a, b);
    Field16().TimesAssociates(a, b, c);
    Field16().TimesDistributes(a, b, c);
    Field16().TimesOne(a);
    Field16().TimesZero(a);
    if Product16(a, b) == 0 {
      Field16().TimesNonzero(a, b);
    }
    if b != 0 {
      Field16().TimesIsMulLog(a, b);
    }
  }

  lemma Add16Laws(a: Ffe, b: Ffe, c: Ffe)
    ensures Add16(a, b) == Add16(b, a) == Xor(a, b) && Add16(Add16(a, b), c) == Add16(a, Add16(b, c))
    ensures Add16(a, 0) == a && Add16(a, a) == 0
  {
    hide Xor;
    XorCommutes(a, b);
    XorAssociates(a, b, c);
    XorZero(a);
    XorSelf(a);
  }

  function Numbered(x: nat): Ffe {
    if x < 65536 then x else 0
  }

  lemma TheField16() returns (n: Novel<Ffe>)
    ensures OfCodec16(n)
  {
    hide Product16, Add16, MulLog16, Log16;
    n := Novel(65536, 0, 1, (a: Ffe, b: Ffe) => Add16(a, b), (a: Ffe, b: Ffe) => Product16(a, b), Numbered);
    forall a: Ffe, b: Ffe, c: Ffe ensures n.Laws(a, b, c) {
      Product16Laws(a, b, c);
      Add16Laws(a, b, c);
    }
    forall x: nat, y: nat | x < 65536 && y < 65536 ensures n.PointLaws(x, y) {
      Product16Laws(x, y, 0);
      Add16Laws(x, y, 0);
    }
    forall a: Ffe, b: Ffe ensures ProductAt(n, a, b) {
      Product16Laws(a, b, 0);
    }
  }

  lemma Codec16Ready(n: Novel<Ffe>)
    requires OfCodec16(n)
    ensures n.Ready() && n.order == 65536 && n.zero == 0 && n.one == 1
  {
    hide Novel.Ready, ProductAt;
  }

  lemma Codec16Sum(n: Novel<Ffe>, a: Ffe, b: Ffe)
    requires OfCodec16(n)
    ensures n.Add(a, b) == Add16(a, b) && n.At(b) == b
  {
    hide Novel.Ready, MulLog16, Log16, Add16, Novel.Times;
    assert ProductAt(n, a, b);
  }

  lemma Codec16Product(n: Novel<Ffe>, a: Ffe, b: Ffe)
    requires OfCodec16(n) && b != 0
    ensures MulLog16(a, Log16(b)) == n.Times(a, b)
  {
    hide Novel.Ready, MulLog16, Log16, Add16, Novel.Times, Novel.Add, Novel.At;
    assert ProductAt(n, a, b);
  }

  // ---------- The skew table ----------

  // The codec with the table of initFFTSkew.
  ghost predicate IsCodec16(t: Leopard) {
    && t.mul == MulShard16 && t.modulus == 65535 && |t.skew| == 65535
    && Field16().Valid() && TableRight(Field16(), t.skew)
  }

  lemma Codec16FromTable(skew: seq<nat>)
    requires |skew| == 65535 && Field16().Valid() && TableRight(Field16(), skew)
    ensures IsCodec16(Leopard16(skew)) && Leopard16(skew).Linear()
  {
    hide TableRight, CantorField.Field.Valid, Field16, Leopard.Linear, ParityLaws.Columnwise, MulShard16;
    Leopard16Laws(skew);
  }

  lemma Log16Range(a: Ffe)
    ensures Log16(a) == 65535 <==> a == 0
  {
    hide CantorField.Field.Valid, Field16, CantorField.Field.Order;
    Field16Valid();
    if a != 0 {
      hide CantorField.Field.Log;
      Field16().ShiftOfLog(a);
    }
  }

  lemma Entry16Is(t: Leopard, q: nat, b: nat)
    requires IsCodec16(t) && Place(q, b) < |t.skew| && 2 * q < 65536
    ensures t.skew[Place(q, b)] == Log16(2 * q) && t.mul == MulShard16 && t.modulus == 65535 && |t.skew| == 65535
  {
    hide Place, MulShard16, CantorField.Field.Valid, CantorField.Field.Log, Field16;
    Field16Valid();
    assert EntryOf(Field16(), t.skew, q, b);
  }

  // ---------- Elements ----------

  // The element that position p of a shard takes part in.
  function ElementOf(p: nat): Shard -> Ffe {
    (y: Shard) => if p < Whole(|y|) then ElementAt(y, p) else 0
  }

  // An element of a product is the product of the element.
  lemma ElementMul(log: Ffe, y: Shard, p: nat)
    requires p < Whole(|y|)
    ensures ElementAt(MulShard16(log, y), p) == MulLog16(ElementAt(y, p), log)
  {
    hide MulLog16, MulShard16, Join, Low, High, Whole, Base;
    BaseFits(p, |y|);
    var b := Base(p);
    BaseTwice(p);
    MulShardAt(log, y, b);
    MulShardAt(log, y, b + 32);
    SameElement(y, p);
    BytesOf(MulLog16(ElementAt(y, p), log));
  }

  lemma BaseTwice(p: nat)
    ensures Base(p) % 64 < 32 && Base(Base(p)) == Base(p)
    ensures (Base(p) + 32) % 64 >= 32 && Base(Base(p) + 32) == Base(p)
  {
  }

  // Both positions of an element give it.
  lemma SameElement(y: Shard, p: nat)
    requires p < Whole(|y|)
    ensures Base(p) + 32 < Whole(|y|)
    ensures ElementAt(y, Base(p)) == ElementAt(y, p) && ElementAt(y, Base(p) + 32) == ElementAt(y, p)
  {
    hide Join, Whole, Base;
    BaseFits(p, |y|);
    BaseTwice(p);
  }

  lemma ElementOfClear(p: nat, size: nat)
    ensures ElementOf(p)(Clear(size)) == 0
  {
    hide Base;
    if p < Whole(size) {
      BaseFits(p, size);
    }
  }

  lemma ElementOfAt(p: nat, y: Shard)
    requires p < Whole(|y|)
    ensures ElementOf(p)(y) == ElementAt(y, p)
  {
  }

  lemma ElementOfMul(log: Ffe, y: Shard, p: nat)
    requires p < Whole(|y|)
    ensures |MulShard16(log, y)| == |y| && ElementOf(p)(MulShard16(log, y)) == MulLog16(ElementOf(p)(y), log)
  {
    hide MulLog16, MulShard16, ElementOf, ElementAt, Whole;
    ElementMul(log, y, p);
    ElementOfAt(p, y);
    ElementOfAt(p, MulShard16(log, y));
  }

  lemma ElementOfSum(p: nat, x: Shard, y: Shard)
    requires |x| == |y| && p < Whole(|y|)
    ensures ElementOf(p)(Xor2(x, y)) == Add16(ElementOf(p)(x), ElementOf(p)(y))
  {
    hide Add16, ElementOf, ElementAt, Whole, Xor2;
    ElementAdd(x, y, p);
    ElementOfAt(p, x);
    ElementOfAt(p, y);
    ElementOfAt(p, Xor2(x, y));
  }

  // The factor of a butterfly with entry Place(q, b) is 2 * q in every element, so that it is
  // zero for q = 0.
  lemma TwiddleIsProduct(t: Leopard, q: nat, b: nat, y: Shard, p: nat, factor: Ffe)
    requires IsCodec16(t) && factor == 2 * q && Place(q, b) < |t.skew| && p < Whole(|y|)
    ensures |t.Twiddle(Place(q, b), y)| == |y|
    ensures ElementOf(p)(t.Twiddle(Place(q, b), y)) == Product16(factor, ElementOf(p)(y))
    ensures q == 0 ==> ElementOf(p)(t.Twiddle(Place(q, b), y)) == 0
  {
    hide IsCodec16, ElementOf, Product16, MulShard16, MulLog16, Log16, Add16, Place, Whole;
    Entry16Is(t, q, b);
    Log16Range(factor);
    var e := ElementOf(p)(y);
    Product16Laws(e, factor, 0);
    ElementOfClear(p, |y|);
    if q != 0 {
      ElementOfMul(Log16(factor), y, p);
    }
  }

  // The elements of shards are read as the codec computes with them.
  lemma ReadsElements(t: Leopard, n: Novel<Ffe>, p: nat, size: nat)
    requires IsCodec16(t) && OfCodec16(n) && p < Whole(size)
    ensures Reads(t, n, ElementOf(p), size)
  {
    hide OfCodec16, IsCodec16, Novel.Ready, Place, Leopard.Twiddle, ElementOf, Product16, Add16, Xor2, Novel.At,
         Novel.Add, Novel.Times, Whole, Clear;
    Codec16Ready(n);
    Skew16Length(t);
    ElementOfClear(p, size);
    forall x: Shard, y: Shard ensures SumReads(n, ElementOf(p), size, x, y) {
      if |x| == |y| == size {
        ElementOfSum(p, x, y);
        Codec16Sum(n, ElementOf(p)(x), ElementOf(p)(y));
      }
    }
    forall q: nat, b: nat, y: Shard ensures TwiddleReads(t, n, ElementOf(p), size, q, b, y) {
      if 2 * q < n.order && Place(q, b) < |t.skew| && |y| == size {
        TwiddleIsProduct(t, q, b, y, p, 2 * q);
        ProductOfField(n, 2 * q, ElementOf(p)(y));
      }
    }
  }

  lemma Skew16Length(t: Leopard)
    requires IsCodec16(t)
    ensures |t.skew| == 65535
  {
    hide TableRight, CantorField.Field.Valid, Field16, MulShard16;
  }

  lemma ProductOfField(n: Novel<Ffe>, a: Ffe, b: Ffe)
    requires OfCodec16(n)
    ensures n.Times(n.At(a), b) == Product16(a, b)
  {
    hide OfCodec16, Product16, MulLog16, Log16, Add16, Novel.Times, Novel.At;
    Codec16Ready(n);
    Codec16Sum(n, 0, a);
    Product16Laws(a, b, 0);
    Product16Laws(b, a, 0);
    n.TimesLaws(a, b, b);
    if b != 0 {
      Codec16Product(n, a, b);
    }
  }
}
