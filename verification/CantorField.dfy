// The fields of the Leopard codecs: a shift register whose elements are written in a Cantor
// basis, and the logarithm and exponent tables between the two.
module CantorField {

  import opened BitXor
  import opened Modular
  import opened BinaryField
  import opened BitMaps
  import opened WalshLoops

  lemma EitherWidth()
    ensures Pow2(8) == 256 && Pow2(16) == 65536
  {
    assert Pow2(8) == 256;
    assert Pow2(16) == 256 * Pow2(8);
  }

  // basis takes an element to the register's form, inverse takes it back.
  datatype Field = Field(g: Gf, basis: BitMap, inverse: BitMap) {

    function Order(): nat {
      g.Order()
    }

    ghost predicate Valid() {
      g.Valid() && g.width == basis.Width() && Undoes(basis, inverse) && Undoes(inverse, basis)
    }

    // logLUT: the discrete logarithm in the register's form, and the modulus for 0.
    function Log(a: nat): nat
      requires Valid() && a < Order()
    {
      Bounds(a);
      if a == 0 then Order() - 1 else g.log[basis.Apply(a)]
    }

    // expLUT
    function Exp(k: nat): nat {
      inverse.Apply(g.Exp(k))
    }

    // mulLog
    function MulLog(a: nat, logB: nat): nat
      requires Valid() && a < Order()
    {
      if a == 0 then 0 else Exp(AddMod(Log(a), logB, Order()))
    }

    lemma Sizes()
      requires Valid()
      ensures Order() == Pow2(g.width) == |g.log| && Order() >= 256
      ensures basis.Width() == inverse.Width() == g.width && basis.Valid() && inverse.Valid()
    {
      hide Gf.Exp, BitMap.ApplyWord, BitMap.Words, Narrower;
      EitherWidth();
      assert g.width == 8 || g.width == 16;
      hide Pow2;
    }

    lemma Bounds(a: nat)
      requires Valid()
      ensures Order() == |g.log| >= 256 && basis.Apply(a) < Order() && inverse.Apply(a) < Order()
      ensures basis.Apply(0) == 0 && inverse.Apply(0) == 0
    {
      hide Undoes, BitMap.Apply, BitMap.Words, Pow2, BitMap.Width;
      Sizes();
      basis.Bound(a);
      inverse.Bound(a);
      basis.IsLinear(0, 0);
      inverse.IsLinear(0, 0);
    }

    lemma Inverses(a: nat)
      requires Valid() && a < Order()
      ensures inverse.Apply(basis.Apply(a)) == a && basis.Apply(inverse.Apply(a)) == a
      ensures basis.Apply(a) == 0 <==> a == 0
    {
      hide Undoes, BitMap.Apply, BitMap.Words, Pow2, BitMap.Width;
      Sizes();
      Bounds(a);
      Undone(basis, inverse, a);
      Undone(inverse, basis, a);
    }

    lemma BasisLinear(a: nat, b: nat)
      ensures basis.Apply(Xor(a, b)) == Xor(basis.Apply(a), basis.Apply(b))
    {
      basis.IsLinear(a, b);
    }

    lemma ShiftOfLog(a: nat)
      requires Valid() && 0 < a < Order()
      ensures Log(a) < Order() - 1 && g.Shift(1, Log(a)) == basis.Apply(a)
    {
      hide Undoes, BitMap.Apply, Gf.Shift, Pow2;
      Bounds(a);
      Inverses(a);
    }

    lemma LogBound(a: nat)
      requires Valid() && a < Order()
      ensures Log(a) < Order()
    {
      hide Undoes, BitMap.Apply, Gf.Shift, Pow2;
      Bounds(a);
      if a != 0 {
        ShiftOfLog(a);
      }
    }

    lemma ExpIsShift(k: nat)
      requires Valid()
      ensures g.Exp(k) == g.Shift(1, k) < Order() && Exp(k) < Order() && basis.Apply(Exp(k)) == g.Exp(k)
    {
      hide Undoes, BitMap.Apply, Gf.Shift, Pow2;
      Bounds(0);
      g.ShiftBound(1, k);
      Bounds(g.Exp(k));
      Inverses(g.Exp(k));
    }

    // In the register's form the product is a shift by the logarithm.
    lemma MulLogIsShift(a: nat, k: nat)
      requires Valid() && a < Order() && k < Order()
      ensures MulLog(a, k) < Order()
      ensures basis.Apply(MulLog(a, k)) == g.Shift(basis.Apply(a), k) < Order()
    {
      hide Undoes, BitMap.Apply, Gf.Shift, Gf.Exp, AddMod, Pow2, Gf.Order, Gf.Valid;
      Bounds(a);
      GfShape();
      g.ShiftBound(basis.Apply(a), k);
      if a == 0 {
        g.ShiftZero(k);
      } else {
        ShiftOfLog(a);
        var l := Log(a);
        var s := AddMod(l, k, Order());
        AddModCong(l, k, Order());
        ExpIsShift(s);
        g.ShiftShift(1, l, k);
        g.ShiftMod(1, l + k);
        g.ShiftMod(1, s);
      }
    }

    lemma GfShape()
      requires Valid()
      ensures g.Valid() && g.HasShape() && Order() == g.Order() && |g.log| == g.Order()
    {
    }

    lemma SameForm(a: nat, b: nat)
      requires Valid() && a < Order() && b < Order() && basis.Apply(a) == basis.Apply(b)
      ensures a == b
    {
      hide *;
      Inverses(a);
      Inverses(b);
    }

    // Exclusive or passes through the product.
    lemma MulLogLinear(a: nat, b: nat, k: nat)
      requires Valid() && a < Order() && b < Order() && k < Order()
      ensures Xor(a, b) < Order()
      ensures MulLog(Xor(a, b), k) == Xor(MulLog(a, k), MulLog(b, k))
    {
      hide Undoes, BitMap.Apply, Gf.Shift, MulLog, Xor, Gf.Valid, Gf.Order, Valid;
      XorBelow(a, b);
      Bounds(a);
      Bounds(b);
      Bounds(Xor(a, b));
      MulLogIsShift(a, k);
      MulLogIsShift(b, k);
      MulLogIsShift(Xor(a, b), k);
      GfShape();
      BasisLinear(a, b);
      g.ShiftLinear(basis.Apply(a), basis.Apply(b), k);
      XorBelow(MulLog(a, k), MulLog(b, k));
      BasisLinear(MulLog(a, k), MulLog(b, k));
      SameForm(MulLog(Xor(a, b), k), Xor(MulLog(a, k), MulLog(b, k)));
    }

    lemma XorBelow(a: nat, b: nat)
      requires Valid() && a < Order() && b < Order()
      ensures Xor(a, b) < Order()
    {
      hide Xor, Undoes;
      Sizes();
      XorBound(a, b, g.width);
    }

    // Scaling by k and then by the modulus less k restores every element, also for k = 0 and
    // k equal to the modulus.
    lemma ScalingRestores(a: nat, k: nat)
      requires Valid() && a < Order() && k < Order()
      ensures MulLog(a, k) < Order()
      ensures MulLog(MulLog(a, k), Order() - 1 - k) == a
    {
      hide Undoes, BitMap.Apply, Gf.Shift, MulLog, Gf.Valid, Gf.Order, Valid;
      Bounds(a);
      MulLogIsShift(a, k);
      var b := MulLog(a, k);
      MulLogIsShift(b, Order() - 1 - k);
      GfShape();
      g.ShiftShift(basis.Apply(a), k, Order() - 1 - k);
      g.ShiftPeriod(basis.Apply(a), 0);
      g.ShiftUnfold(basis.Apply(a), 0);
      SameForm(MulLog(b, Order() - 1 - k), a);
    }

    // Logarithms count modulo Order() - 1.
    lemma MulLogCong(a: nat, k: nat, l: nat)
      requires Valid() && a < Order() && k < Order() && l < Order() && Order() > 1 && Cong(k, l, Order() - 1)
      ensures MulLog(a, k) == MulLog(a, l)
    {
      hide Undoes, BitMap.Apply, Gf.Shift, MulLog, Gf.Valid, Gf.Order, Valid;
      Bounds(a);
      GfShape();
      MulLogIsShift(a, k);
      MulLogIsShift(a, l);
      g.ShiftMod(basis.Apply(a), k);
      g.ShiftMod(basis.Apply(a), l);
      SameForm(MulLog(a, k), MulLog(a, l));
    }

    // Multiplying by two logarithms is multiplying by their sum.
    lemma MulLogAdds(a: nat, k: nat, l: nat, s: nat)
      requires Valid() && a < Order() && k < Order() && l < Order() && s < Order()
      requires Order() > 1 && Cong(s, k + l, Order() - 1)
      ensures MulLog(a, k) < Order() && MulLog(MulLog(a, k), l) == MulLog(a, s)
    {
      hide Undoes, BitMap.Apply, Gf.Shift, MulLog, Gf.Valid, Gf.Order, Valid;
      Bounds(a);
      GfShape();
      MulLogIsShift(a, k);
      MulLogIsShift(MulLog(a, k), l);
      MulLogIsShift(a, s);
      g.ShiftShift(basis.Apply(a), k, l);
      g.ShiftMod(basis.Apply(a), k + l);
      g.ShiftMod(basis.Apply(a), s);
      SameForm(MulLog(MulLog(a, k), l), MulLog(a, s));
    }

    lemma MulLogNone(a: nat)
      requires Valid() && a < Order()
      ensures 0 < Order() && MulLog(a, 0) == a
    {
      hide Undoes, BitMap.Apply, Gf.Shift, MulLog, Gf.Valid, Gf.Order, Valid;
      Bounds(a);
      GfShape();
      MulLogIsShift(a, 0);
      g.ShiftUnfold(basis.Apply(a), 0);
      SameForm(MulLog(a, 0), a);
    }

    // With the logarithm of b, it is the product of the field.
    lemma MulLogIsProduct(a: nat, b: nat)
      requires Valid() && a < Order() && 0 < b < Order()
      ensures basis.Apply(a) < Order() == |g.log| && basis.Apply(b) < Order()
      ensures basis.Apply(MulLog(a, Log(b))) == g.Mul(basis.Apply(a), basis.Apply(b))
      ensures basis.Apply(MulLog(a, Log(b))) == g.Schoolbook(basis.Apply(a), basis.Apply(b))
    {
      hide Undoes, BitMap.Apply, Gf.Shift, MulLog, Gf.Valid, Gf.Order, Valid, Gf.Mul, Gf.Schoolbook;
      Bounds(a);
      Bounds(b);
      Inverses(b);
      GfShape();
      ShiftOfLog(b);
      MulLogIsShift(a, Log(b));
      g.MulIsShift(basis.Apply(a), basis.Apply(b));
      g.MulIsSchoolbook(basis.Apply(a), basis.Apply(b));
    }

    // ---------- Arithmetic on elements as they are stored ----------

    function Times(a: nat, b: nat): nat
      requires Valid() && a < Order() && b < Order()
    {
      Bounds(a);
      Bounds(b);
      inverse.Apply(g.Mul(basis.Apply(a), basis.Apply(b)))
    }

    lemma TimesForm(a: nat, b: nat)
      requires Valid() && a < Order() && b < Order()
      ensures Times(a, b) < Order() && basis.Apply(a) < |g.log| && basis.Apply(b) < |g.log|
      ensures basis.Apply(Times(a, b)) == g.Mul(basis.Apply(a), basis.Apply(b))
    {
      hide Undoes, BitMap.Apply, Gf.Mul, Gf.Valid, Gf.Order;
      Bounds(a);
      Bounds(b);
      GfShape();
      var product := g.Mul(basis.Apply(a), basis.Apply(b));
      g.MulBound(basis.Apply(a), basis.Apply(b));
      Bounds(product);
      Inverses(product);
    }

    lemma TimesCommutes(a: nat, b: nat)
      requires Valid() && a < Order() && b < Order()
      ensures Times(a, b) == Times(b, a) < Order()
    {
      hide *;
      GfShape();
      Bounds(a);
      Bounds(b);
      TimesForm(a, b);
      TimesForm(b, a);
      g.MulCommutes(basis.Apply(a), basis.Apply(b));
      SameForm(Times(a, b), Times(b, a));
    }

    lemma TimesAssociates(a: nat, b: nat, c: nat)
      requires Valid() && a < Order() && b < Order() && c < Order()
      ensures Times(a, b) < Order() && Times(b, c) < Order()
      ensures Times(Times(a, b), c) == Times(a, Times(b, c))
    {
      hide *;
      GfShape();
      Bounds(a);
      Bounds(b);
      Bounds(c);
      TimesForm(a, b);
      TimesForm(b, c);
      TimesForm(Times(a, b), c);
      TimesForm(a, Times(b, c));
      g.MulAssociates(basis.Apply(a), basis.Apply(b), basis.Apply(c));
      SameForm(Times(Times(a, b), c), Times(a, Times(b, c)));
    }

    lemma TimesDistributes(a: nat, b: nat, c: nat)
      requires Valid() && a < Order() && b < Order() && c < Order()
      ensures Xor(a, b) < Order() && Times(a, c) < Order() && Times(b, c) < Order()
      ensures Times(Xor(a, b), c) == Xor(Times(a, c), Times(b, c))
    {
      hide *;
      GfShape();
      Bounds(a);
      Bounds(b);
      Bounds(c);
      XorBelow(a, b);
      TimesForm(a, c);
      TimesForm(b, c);
      TimesForm(Xor(a, b), c);
      BasisLinear(a, b);
      g.MulDistributes(basis.Apply(a), basis.Apply(b), basis.Apply(c));
      XorBelow(Times(a, c), Times(b, c));
      BasisLinear(Times(a, c), Times(b, c));
      SameForm(Times(Xor(a, b), c), Xor(Times(a, c), Times(b, c)));
    }

    lemma TimesZero(a: nat)
      requires Valid() && a < Order()
      ensures 0 < Order() && Times(a, 0) == 0 && Times(0, a) == 0
    {
      hide Undoes, BitMap.Apply, Gf.Valid, Gf.Order;
      GfShape();
      Bounds(a);
    }

    lemma TimesIsMulLog(a: nat, b: nat)
      requires Valid() && a < Order() && 0 < b < Order()
      ensures MulLog(a, Log(b)) == Times(a, b)
    {
      hide *;
      LogBound(b);
      TimesForm(a, b);
      MulLogIsProduct(a, b);
      MulLogIsShift(a, Log(b));
      SameForm(MulLog(a, Log(b)), Times(a, b));
    }

    // There are no divisors of zero.
    lemma TimesNonzero(a: nat, b: nat)
      requires Valid() && a < Order() && b < Order() && Times(a, b) == 0
      ensures a == 0 || b == 0
    {
      hide *;
      if b != 0 {
        LogBound(b);
        TimesIsMulLog(a, b);
        ScalingRestores(a, Log(b));
        MulOfZero(Order() - 1 - Log(b));
      }
    }

    lemma MulOfZero(k: nat)
      requires Valid()
      ensures 0 < Order() && MulLog(0, k) == 0
    {
      hide Undoes, BitMap.Apply, Gf.Valid;
      Bounds(0);
    }

    // ---------- Cantor bases ----------

    // Squaring an element and adding it drops its lowest bit and moves the others down.
    ghost predicate Cantor() {
      && Valid() && basis.Apply(1) == 1
      && forall a: nat | a < Order() :: Times(a, a) == Xor(a, a / 2)
    }

    lemma TimesOne(a: nat)
      requires Cantor() && a < Order()
      ensures 1 < Order() && Times(a, 1) == a && Times(1, a) == a
    {
      hide Undoes, BitMap.Apply, Gf.Valid, Gf.Order, Gf.Mul;
      GfShape();
      Bounds(a);
      Bounds(1);
      Inverses(a);
      g.MulOne(basis.Apply(a));
      TimesCommutes(a, 1);
    }
  }
}
