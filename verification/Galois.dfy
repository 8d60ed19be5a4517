// GF(2^8) as galois.go computes with it: the shift register of x^8 + x^4 + x^3 + x^2 + 1, its
// table of logarithms, and the arithmetic read from the tables, which makes the bytes a field.
module Galois {

  import opened BitXor
  import opened BinaryField
  import opened Registers

  type Byte = b: nat | b < 256

  // The register and its logarithms, as logTable holds them.
  function Gf256(): Gf {
    Register8().WithLogs()
  }

  lemma Gf256Shape()
    ensures Gf256().HasShape() && Gf256().Order() == 256
  {
    hide Gf.DiscreteLog, Pow2;
    Shape8();
  }

  // The logarithms of galois.go describe a field of 256 elements.
  lemma Gf256Valid()
    ensures Gf256().Valid() && Gf256().Order() == 256
  {
    hide Gf.WithLogs, Gf.Valid, Gf.Order, Gf.FullPeriod, Register8;
    FullPeriod8();
    Register8().WithLogsValid();
  }

  // ---------- galAdd, galMultiply, galOneOver, galExp ----------

  function LogTable(a: Byte): nat
    requires a != 0
  {
    Gf256().log[a]
  }

  function GalAdd(a: Byte, b: Byte): Byte {
    assert Pow2(8) == 256;
    XorBound(a, b, 8);
    Xor(a, b)
  }

  function GalMultiply(a: Byte, b: Byte): Byte {
    Gf256Valid();
    Gf256().MulBound(a, b);
    Gf256().Mul(a, b)
  }

  // The bits of logTable[a] ^ 255 are those of 255 - logTable[a].
  function GalOneOver(a: Byte): Byte
    requires a != 0
  {
    Gf256Valid();
    Gf256().MulInverse(a);
    Gf256().Exp(255 - LogTable(a))
  }

  lemma AddLaws(a: Byte, b: Byte, c: Byte)
    ensures GalAdd(a, b) == GalAdd(b, a)
    ensures GalAdd(GalAdd(a, b), c) == GalAdd(a, GalAdd(b, c))
    ensures GalAdd(a, 0) == a && GalAdd(0, a) == a && GalAdd(a, a) == 0
    ensures GalAdd(a, b) == 0 <==> a == b
  {
    hide Xor;
    XorCommutes(a, b);
    XorAssociates(a, b, c);
    XorZero(a);
    XorSelf(a);
    XorIsZero(a, b);
  }

  lemma MulLaws(a: Byte, b: Byte, c: Byte)
    ensures GalMultiply(a, b) == GalMultiply(b, a)
    ensures GalMultiply(GalMultiply(a, b), c) == GalMultiply(a, GalMultiply(b, c))
    ensures GalMultiply(a, 1) == a && GalMultiply(1, a) == a
    ensures GalMultiply(a, 0) == 0 && GalMultiply(0, a) == 0
    ensures GalMultiply(a, b) == 0 <==> a == 0 || b == 0
    ensures a != 0 ==> GalMultiply(a, GalOneOver(a)) == 1
  {
    hide Gf.Mul, Gf.Exp, Gf256;
    var g := Gf256();
    Gf256Valid();
    g.MulCommutes(a, b);
    g.MulBound(a, b);
    g.MulAssociates(a, b, c);
    g.MulOne(a);
    g.MulBound(a, 0);
    g.MulBound(0, a);
    if a != 0 {
      g.MulInverse(a);
    }
  }

  // What is computed from logarithms is the product of polynomials modulo the generating one.
  lemma MultiplyIsSchoolbook(a: Byte, b: Byte)
    ensures GalMultiply(a, b) == Register8().Schoolbook(a, b)
  {
    hide Gf.Mul, Gf.Schoolbook, Gf.WithLogs, Gf.Valid, Gf.Order, Register8;
    Gf256Valid();
    Gf256().MulIsSchoolbook(a, b);
    Register8().SameProduct(a, b);
  }

  // Products that the tests of galois.go give.
  lemma KnownProducts()
    ensures GalMultiply(3, 4) == 12 && GalMultiply(7, 7) == 21 && GalMultiply(23, 45) == 41
  {
    MultiplyIsSchoolbook(3, 4);
    MultiplyIsSchoolbook(7, 7);
    MultiplyIsSchoolbook(23, 45);
    var r := Register8();
    hide *;
    SmallRows(r);
    KnownSums();
    Row(r, 23, 45);
    Row(r, 11, 90);
    Row(r, 5, 180);
    Row(r, 2, 117);
    Row(r, 1, 234);
    XorZero(r.Schoolbook(1, 234));
  }

  lemma SmallRows(r: Gf)
    requires r == Register8()
    ensures r.Schoolbook(3, 4) == 12 && r.Schoolbook(7, 7) == 21 && forall b: Byte :: r.Schoolbook(1, b) == b
  {
    hide *;
    forall b: Byte ensures r.Schoolbook(1, b) == b {
      Row(r, 1, b);
      Row(r, 0, if b < 128 then 2 * b else Xor(2 * b, 285));
      XorZero(b);
    }
    KnownSums();
    Row(r, 3, 4);
    Row(r, 7, 7);
    Row(r, 3, 14);
  }

  // One step of the multiplication of polynomials.
  lemma Row(r: Gf, a: nat, b: nat)
    requires r == Register8()
    ensures r.Schoolbook(a, b)
         == if a == 0 then 0
            else Xor(if a % 2 == 1 then b else 0,
                     r.Schoolbook(a / 2, if b < 128 then 2 * b else Xor(2 * b, 285)))
  {
    hide Xor;
    assert Pow2(8) == 256;
  }

  lemma KnownSums()
    ensures Xor(360, 285) == 117
    ensures Xor(4, 8) == 12 && Xor(14, 28) == 18 && Xor(7, 18) == 21
    ensures Xor(180, 234) == 94 && Xor(90, 94) == 4 && Xor(45, 4) == 41
  {
    assert Xor(1, 1) == 0;
    assert Xor(2, 2) == 0;
    assert Xor(5, 4) == 1;
    assert Xor(11, 8) == 3;
    assert Xor(22, 17) == 7;
    assert Xor(45, 35) == 14;
    assert Xor(90, 71) == 29;
    assert Xor(180, 142) == 58;
    assert Xor(360, 285) == 117;
    assert Xor(0, 1) == 1;
    assert Xor(1, 2) == 3;
    assert Xor(2, 4) == 6;
    assert Xor(4, 8) == 12;
    assert Xor(1, 3) == 2;
    assert Xor(3, 7) == 4;
    assert Xor(7, 14) == 9;
    assert Xor(14, 28) == 18;
    assert Xor(0, 2) == 2;
    assert Xor(1, 4) == 5;
    assert Xor(3, 9) == 10;
    assert Xor(7, 18) == 21;
    assert Xor(2, 3) == 1;
    assert Xor(5, 7) == 2;
    assert Xor(11, 14) == 5;
    assert Xor(22, 29) == 11;
    assert Xor(45, 58) == 23;
    assert Xor(90, 117) == 47;
    assert Xor(180, 234) == 94;
    assert Xor(5, 5) == 0;
    assert Xor(11, 11) == 0;
    assert Xor(22, 23) == 1;
    assert Xor(45, 47) == 2;
    assert Xor(90, 94) == 4;
    assert Xor(1, 0) == 1;
    assert Xor(2, 0) == 2;
    assert Xor(5, 0) == 5;
    assert Xor(11, 1) == 10;
    assert Xor(22, 2) == 20;
    assert Xor(45, 4) == 41;
  }

  lemma Distributes(a: Byte, b: Byte, c: Byte)
    ensures GalMultiply(GalAdd(a, b), c) == GalAdd(GalMultiply(a, c), GalMultiply(b, c))
    ensures GalMultiply(c, GalAdd(a, b)) == GalAdd(GalMultiply(c, a), GalMultiply(c, b))
  {
    hide Gf.Mul, Gf256, Xor;
    var g := Gf256();
    Gf256Valid();
    g.MulDistributes(a, b, c);
    g.MulCommutes(GalAdd(a, b), c);
    g.MulCommutes(a, c);
    g.MulCommutes(b, c);
  }

  // a multiplied by itself n times
  function Power(a: Byte, n: nat): Byte {
    if n == 0 then 1 else GalMultiply(a, Power(a, n - 1))
  }

  lemma {:induction false} PowerByLog(a: Byte, n: nat)
    requires a != 0
    ensures Power(a, n) == Gf256().Exp(LogTable(a) * n)
  {
    hide Gf.Exp, Gf.Mul, Gf256;
    var g := Gf256();
    Gf256Valid();
    if n == 0 {
      g.ExpZero();
    } else {
      var l := LogTable(a);
      PowerByLog(a, n - 1);
      assert l * (n - 1) + l == l * n;
      g.MulExp(a, l * (n - 1));
    }
  }

  lemma PowerBase(a: Byte, n: nat)
    ensures n == 0 ==> Power(a, n) == 1
    ensures n != 0 && a == 0 ==> Power(a, n) == 0
  {
    if n != 0 {
      MulLaws(0, Power(0, n - 1), 0);
    }
  }

  method GalExp(a: Byte, n: nat) returns (r: Byte)
    ensures r == Power(a, n)
  {
    hide *;
    PowerBase(a, n);
    if n == 0 {
      return 1;
    }
    if a == 0 {
      return 0;
    }
    Gf256Valid();
    Gf256Shape();
    var g := Gf256();
    var logA := LogTable(a);
    var logResult := logA * n;
    PowerByLog(a, n);
    while logResult >= 255
      invariant 0 <= logResult && g.Exp(logResult) == Power(a, n)
    {
      g.ExpPeriod(logResult - 255);
      logResult := logResult - 255;
    }
    g.ExpPeriod(logResult);
    r := g.Exp(logResult);
  }
}
