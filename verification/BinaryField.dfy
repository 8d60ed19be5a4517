// GF(2^width) built from a linear feedback shift register and its table of logarithms.
// Both galois.go (width 8) and the Leopard codecs (widths 8 and 16) rest on this construction.
module BinaryField {

  import opened BitXor
  import opened Modular
  import opened Pigeonhole
  import opened Periods

  // poly is the generating polynomial with its leading bit; log[a] is the discrete logarithm
  // of a to the base x.
  datatype Gf = Gf(width: nat, poly: nat, log: seq<nat>) {

    function Order(): (r: nat)
      ensures r >= 1
    {
      Pow2(width)
    }

    // One step of the shift register: x * a modulo poly.
    function TimesX(a: nat): nat {
      if 2 * a >= Order() then Xor(2 * a, poly) else 2 * a
    }

    // x^n * a
    function Shift(a: nat, n: nat): nat {
      if n == 0 then a else TimesX(Shift(a, n - 1))
    }

    // x^n
    function Exp(n: nat): nat {
      Shift(1, n)
    }

    ghost predicate HasShape() {
      && width > 0
      && Order() <= poly < 2 * Order()
    }

    // The register returns to 1 after Order() - 1 steps and not before.
    ghost predicate FullPeriod() {
      && HasShape()
      && Exp(Order() - 1) == 1
      && (forall n: nat | 0 < n < Order() - 1 :: Exp(n) != 1)
    }

    // The register runs through every nonzero element, and log is the position at which it
    // meets each of them.
    ghost predicate Valid() {
      && HasShape()
      && |log| == Order()
      && Exp(Order() - 1) == 1
      && (forall a | 0 < a < Order() :: log[a] < Order() - 1 && Exp(log[a]) == a)
      && (forall n: nat | n < Order() - 1 :: 0 < Exp(n) < Order() && log[Exp(n)] == n)
    }

    // The number of shifts, at least k, that take 1 to a.
    function DiscreteLog(a: nat, k: nat): nat
      decreases Order() - k
    {
      if k >= Order() || Exp(k) == a then k else DiscreteLog(a, k + 1)
    }

    function WithLogs(): Gf {
      this.(log := seq(Order(), a requires 0 <= a => DiscreteLog(a, 0)))
    }

    // Multiplication of polynomials, shift and add.
    function Schoolbook(a: nat, b: nat): nat {
      if a == 0 then 0 else Xor(if a % 2 == 1 then b else 0, Schoolbook(a / 2, TimesX(b)))
    }

    // Multiplication by adding logarithms.
    function Mul(a: nat, b: nat): nat
      requires a < |log| && b < |log|
    {
      if a == 0 || b == 0 then 0 else Exp(log[a] + log[b])
    }

    // ---------- The shift register ----------

    lemma TimesXBound(a: nat)
      requires HasShape() && a < Order()
      ensures TimesX(a) < Order()
    {
      if 2 * a >= Order() {
        hide Xor;
        var lo, rest := 2 * a - Order(), poly - Order();
        XorTopBit(lo, rest, width);
        XorBound(lo, rest, width);
      }
    }

    lemma {:induction false} ShiftBound(a: nat, n: nat)
      requires HasShape() && a < Order()
      ensures Shift(a, n) < Order()
    {
      if n != 0 {
        hide TimesX;
        ShiftBound(a, n - 1);
        TimesXBound(Shift(a, n - 1));
      }
    }

    lemma TimesXLinear(a: nat, b: nat)
      requires HasShape() && a < Order() && b < Order()
      ensures TimesX(Xor(a, b)) == Xor(TimesX(a), TimesX(b))
    {
      hide Xor;
      XorDouble(a, b);
      var half := Pow2(width - 1);
      var a', b' := if a < half then a else a - half, if b < half then b else b - half;
      XorTopBit(a', b', width - 1);
      XorBound(a', b', width - 1);
      XorAssociates(2 * a, 2 * b, poly);
      XorAssociates(2 * a, poly, 2 * b);
      XorCommutes(poly, 2 * b);
      XorExchange(2 * a, poly, 2 * b, poly);
      XorSelf(poly);
      XorZero(Xor(2 * a, 2 * b));
    }

    lemma ShiftUnfold(a: nat, n: nat)
      ensures Shift(a, n) == if n == 0 then a else TimesX(Shift(a, n - 1))
    {
    }

    lemma {:induction false} ShiftLinear(a: nat, b: nat, n: nat)
      requires HasShape() && a < Order() && b < Order()
      ensures Shift(Xor(a, b), n) == Xor(Shift(a, n), Shift(b, n))
    {
      hide TimesX, Xor, Shift, Order, HasShape;
      ShiftUnfold(a, n);
      ShiftUnfold(b, n);
      ShiftUnfold(Xor(a, b), n);
      if n != 0 {
        ShiftLinear(a, b, n - 1);
        ShiftBound(a, n - 1);
        ShiftBound(b, n - 1);
        TimesXLinear(Shift(a, n - 1), Shift(b, n - 1));
      }
    }

    lemma {:induction false} ShiftShift(a: nat, m: nat, n: nat)
      ensures Shift(Shift(a, m), n) == Shift(a, m + n)
    {
      if n != 0 {
        hide TimesX;
        ShiftShift(a, m, n - 1);
      }
    }

    lemma {:induction false} ShiftZero(n: nat)
      ensures Shift(0, n) == 0
    {
      if n != 0 {
        ShiftZero(n - 1);
      }
    }

    lemma ExpDistinct(i: nat, j: nat)
      requires FullPeriod() && i < j < Order() - 1
      ensures Exp(i) != Exp(j)
    {
      hide Shift;
      var rest := Order() - 1 - j;
      ShiftShift(1, i, rest);
      ShiftShift(1, j, rest);
      assert Exp(i + rest) != 1;
    }

    lemma ExpNonzero(n: nat)
      requires FullPeriod() && n < Order() - 1
      ensures 0 < Exp(n) < Order()
    {
      hide Shift;
      ShiftBound(1, n);
      ShiftShift(1, n, Order() - 1 - n);
      ShiftZero(Order() - 1 - n);
    }

    // Every nonzero element is a power of x.
    lemma ExpCovers(a: nat) returns (n: nat)
      requires FullPeriod() && 0 < a < Order()
      ensures n < Order() - 1 && Exp(n) == a
    {
      hide Shift;
      var s := seq(Order() - 1, k requires 0 <= k < Order() - 1 => Exp(k));
      forall i, j | 0 <= i < j < |s| ensures s[i] != s[j] {
        ExpDistinct(i, j);
      }
      forall x | x in s ensures 1 <= x < 1 + |s| {
        var i :| 0 <= i < |s| && s[i] == x;
        ExpNonzero(i);
      }
      n := Surjective(s, 1, a);
    }

    // A register of full period makes any table that inverts it a table of logarithms.
    lemma FullPeriodIsValid()
      requires FullPeriod()
      requires |log| == Order() && forall n: nat | n < Order() - 1 :: Exp(n) < Order() && log[Exp(n)] == n
      ensures Valid()
    {
      hide Shift;
      forall n: nat | n < Order() - 1 ensures 0 < Exp(n) < Order() {
        ExpNonzero(n);
      }
      forall a | 0 < a < Order() ensures log[a] < Order() - 1 && Exp(log[a]) == a {
        var n := ExpCovers(a);
      }
    }

    // The register has period Order() - 1 on every element.
    lemma ShiftPeriod(a: nat, n: nat)
      requires Valid() && a < Order()
      ensures Shift(a, n + (Order() - 1)) == Shift(a, n)
    {
      if a == 0 {
        ShiftZero(n);
        ShiftZero(n + (Order() - 1));
      } else {
        hide Shift;
        var k := log[a];
        ShiftShift(1, k, n);
        ShiftShift(1, k, n + (Order() - 1));
        ShiftShift(1, Order() - 1, k + n);
      }
    }

    lemma ExpPeriod(n: nat)
      requires Valid()
      ensures Exp(n + (Order() - 1)) == Exp(n) < Order()
    {
      hide Shift;
      assert width > 0;
      ShiftPeriod(1, n);
      ShiftBound(1, n);
    }

    lemma {:induction false} ShiftMod(a: nat, n: nat)
      requires Valid() && a < Order() && Order() > 1
      ensures Shift(a, n) == Shift(a, n % (Order() - 1))
    {
      hide *;
      var period := Order() - 1;
      if n >= period {
        ShiftPeriod(a, n - period);
        ShiftMod(a, n - period);
        CongShift(n, -1, period);
      }
    }

    // ---------- The field ----------

    // Multiplying by b is running the register log[b] times.
    lemma MulIsShift(a: nat, b: nat)
      requires Valid() && a < Order() && 0 < b < Order()
      ensures Mul(a, b) == Shift(a, log[b])
    {
      if a == 0 {
        ShiftZero(log[b]);
      } else {
        ShiftShift(1, log[a], log[b]);
      }
    }

    lemma MulBound(a: nat, b: nat)
      requires Valid() && a < Order() && b < Order()
      ensures Mul(a, b) < Order()
      ensures Mul(a, b) == 0 <==> a == 0 || b == 0
    {
      if a != 0 && b != 0 {
        hide Shift;
        ShiftBound(1, log[a] + log[b]);
        if Mul(a, b) == 0 {
          // Running on to a multiple of the period would bring 1 back out of 0.
          var n := log[a] + log[b];
          ShiftShift(1, n, 2 * (Order() - 1) - n);
          ShiftZero(2 * (Order() - 1) - n);
          ShiftPeriod(1, Order() - 1);
          assert false;
        }
      }
    }

    lemma MulExp(a: nat, m: nat)
      requires Valid() && 0 < a < Order()
      ensures Exp(m) < Order()
      ensures Mul(a, Exp(m)) == Exp(m + log[a])
    {
      hide Shift;
      ShiftBound(1, m);
      MulIsShift(Exp(m), a);
      ShiftShift(1, m, log[a]);
    }

    lemma ExpZero()
      ensures Exp(0) == 1
    {
    }

    lemma MulCommutes(a: nat, b: nat)
      requires Valid() && a < Order() && b < Order()
      ensures Mul(a, b) == Mul(b, a)
    {
    }

    lemma MulOne(a: nat)
      requires Valid() && a < Order() && Order() > 1
      ensures Mul(a, 1) == a && Mul(1, a) == a
    {
      assert log[Exp(0)] == 0;
    }

    lemma MulDistributes(a: nat, b: nat, c: nat)
      requires Valid() && a < Order() && b < Order() && c < Order()
      ensures Xor(a, b) < Order()
      ensures Mul(Xor(a, b), c) == Xor(Mul(a, c), Mul(b, c))
    {
      hide Xor;
      XorBound(a, b, width);
      if c == 0 {
        XorSelf(0);
      } else {
        MulIsShift(a, c);
        MulIsShift(b, c);
        MulIsShift(Xor(a, b), c);
        ShiftLinear(a, b, log[c]);
      }
    }

    lemma TripleProduct(a: nat, b: nat, c: nat)
      requires Valid() && 0 < a < Order() && 0 < b < Order() && 0 < c < Order()
      ensures 0 < Mul(a, b) < Order()
      ensures Mul(Mul(a, b), c) == Shift(1, log[a] + (log[b] + log[c]))
    {
      hide Shift;
      MulBound(a, b);
      MulIsShift(a, b);
      MulIsShift(Mul(a, b), c);
      ShiftShift(a, log[b], log[c]);
      ShiftShift(1, log[a], log[b] + log[c]);
    }

    lemma MulAssociates(a: nat, b: nat, c: nat)
      requires Valid() && a < Order() && b < Order() && c < Order()
      ensures Mul(a, b) < Order() && Mul(b, c) < Order()
      ensures Mul(Mul(a, b), c) == Mul(a, Mul(b, c))
    {
      MulBound(a, b);
      MulBound(b, c);
      if a != 0 && b != 0 && c != 0 {
        hide Shift, Exp;
        TripleProduct(a, b, c);
        TripleProduct(b, c, a);
        MulCommutes(a, Mul(b, c));
      }
    }

    // The complement of the logarithm is the logarithm of the inverse.
    lemma MulInverse(a: nat)
      requires Valid() && 0 < a < Order()
      ensures Exp(Order() - 1 - log[a]) < Order()
      ensures Mul(a, Exp(Order() - 1 - log[a])) == 1
    {
      hide Shift;
      var k := Order() - 1 - log[a];
      ShiftBound(1, k);
      if k < Order() - 1 {
        assert log[Exp(k)] == k;
      } else {
        ShiftPeriod(1, 0);
        assert Exp(0) == Exp(k);
        assert log[Exp(0)] == 0;
      }
    }

    // ---------- The table of logarithms ----------

    lemma {:induction false} DiscreteLogFinds(n: nat, k: nat)
      requires k <= n < Order()
      requires forall i: nat | i < n :: Exp(i) != Exp(n)
      ensures DiscreteLog(Exp(n), k) == n
      decreases n - k
    {
      hide Exp;
      if k < n {
        DiscreteLogFinds(n, k + 1);
      }
    }

    lemma {:induction false} SameRegister(a: nat, n: nat)
      ensures WithLogs().Shift(a, n) == Shift(a, n)
    {
      if n != 0 {
        hide Xor, DiscreteLog;
        SameRegister(a, n - 1);
        var b := Shift(a, n - 1);
        assert WithLogs().TimesX(b) == TimesX(b);
      }
    }

    // Searching for the logarithms gives a field whenever the register has full period.
    lemma WithLogsValid()
      requires FullPeriod()
      ensures WithLogs().Valid() && WithLogs().Order() == Order()
    {
      hide Shift, DiscreteLog;
      var g := WithLogs();
      forall n: nat ensures g.Exp(n) == Exp(n) {
        SameRegister(1, n);
      }
      assert g.FullPeriod();
      forall n: nat | n < Order() - 1 ensures g.Exp(n) < Order() && g.log[g.Exp(n)] == n {
        ExpNonzero(n);
        forall i: nat | i < n ensures Exp(i) != Exp(n) {
          ExpDistinct(i, n);
        }
        DiscreteLogFinds(n, 0);
      }
      g.FullPeriodIsValid();
    }

    // ---------- Shift and add ----------

    lemma ShiftFirst(a: nat, n: nat)
      ensures Shift(a, n + 1) == Shift(TimesX(a), n)
    {
      ShiftShift(a, 1, n);
      ShiftUnfold(a, 1);
      ShiftUnfold(a, 0);
    }

    lemma HalfBelow(a: nat)
      requires HasShape() && a < Order()
      ensures TimesX(a / 2) == a / 2 * 2 && 1 < Order() && a / 2 * 2 < Order()
      ensures a == Xor(a % 2, a / 2 * 2)
    {
      hide Xor;
      PowStep(width);
      XorStep(a % 2, a / 2 * 2);
      XorZero(a / 2);
      SameBits(a, Xor(a % 2, a / 2 * 2));
    }

    // Multiplying by a power of x, shift and add, runs the register.
    lemma {:induction false} SchoolbookShifts(a: nat, n: nat)
      requires HasShape() && a < Order()
      ensures Schoolbook(a, Exp(n)) == Shift(a, n)
      decreases a
    {
      hide Xor, Shift, TimesX, HasShape, Order;
      if a == 0 {
        ShiftZero(n);
      } else {
        HalfBelow(a);
        SchoolbookShifts(a / 2, n + 1);
        ShiftUnfold(1, n + 1);
        ShiftFirst(a / 2, n);
        ShiftLinear(a % 2, a / 2 * 2, n);
        ShiftZero(n);
      }
    }

    // The sum of logarithms is the product of polynomials.
    lemma ExpSum(m: nat, n: nat)
      requires HasShape()
      ensures Exp(m + n) == Schoolbook(Exp(m), Exp(n))
    {
      hide Xor, Shift, TimesX, Schoolbook;
      PowStep(width);
      ShiftBound(1, m);
      SchoolbookShifts(Exp(m), n);
      ShiftShift(1, m, n);
    }

    // The tables multiply as polynomials modulo poly are multiplied.
    lemma MulIsSchoolbook(a: nat, b: nat)
      requires Valid() && a < Order() && b < Order()
      ensures Mul(a, b) == Schoolbook(a, b)
    {
      hide Xor, Shift, TimesX, Schoolbook;
      if b == 0 {
        SchoolbookZero(a);
      } else if a == 0 {
        SchoolbookNone(b);
      } else {
        ExpSum(log[a], log[b]);
      }
    }

    lemma SchoolbookNone(b: nat)
      ensures Schoolbook(0, b) == 0
    {
    }

    lemma {:induction false} SameProduct(a: nat, b: nat)
      ensures WithLogs().Schoolbook(a, b) == Schoolbook(a, b)
      decreases a
    {
      hide Xor, DiscreteLog;
      if a != 0 {
        assert WithLogs().TimesX(b) == TimesX(b);
        SameProduct(a / 2, TimesX(b));
      }
    }

    lemma {:induction false} SchoolbookZero(a: nat)
      ensures Schoolbook(a, 0) == 0
    {
      if a != 0 {
        SchoolbookZero(a / 2);
      }
    }

    // ---------- The period ----------

    lemma {:induction false} ExpMultiple(d: nat, k: nat)
      requires HasShape() && Exp(d) == 1
      ensures Exp(d * k) == 1
    {
      hide Shift;
      if k == 0 {
        ExpZero();
      } else {
        ExpMultiple(d, k - 1);
        ShiftShift(1, d * (k - 1), d);
        assert d * k == d * (k - 1) + d;
      }
    }

    // The period is full if it is not cut short at the quotient of Order() - 1 by a prime.
    lemma PeriodFromPrimes(ps: seq<nat>)
      requires HasShape() && Exp(Order() - 1) == 1 && Product(ps) == Order() - 1
      requires forall p | p in ps :: Prime(p) && forall q: nat | p * q == Order() - 1 :: Exp(q) != 1
      ensures FullPeriod()
    {
      hide Exp, Product, Order, Prime;
      var total := Order() - 1;
      forall n: nat | 0 < n < total ensures Exp(n) != 1 {
        if Exp(n) == 1 {
          var s := (k: nat) => Exp(k) == 1;
          ReturnsClosed(s);
          var d := LeastOf(s, n);
          LeastDivides(s, d, total);
          var e := Quotient(total, d);
          if e <= 1 {
            MulMonotone(e, 1, d);
          }
          var p := PrimeLeft(d, e, ps);
          var q := Quotient(e, p);
          ExpMultiple(d, q);
          Exchange(p, d, q, total);
        }
      }
    }

    lemma Exchange(p: nat, d: nat, q: nat, total: nat)
      requires total == d * (p * q)
      ensures p * (d * q) == total
    {
    }

    lemma ReturnsClosed(s: nat -> bool)
      requires HasShape() && s == ((k: nat) => Exp(k) == 1)
      ensures Closed(s)
    {
      hide Shift;
      forall a: nat, b: nat | a <= b && s(a) && s(b) ensures s(b - a) {
        ShiftShift(1, a, b - a);
      }
    }
  }
}
