// Exclusive or on natural numbers of any width, and its laws. Bytes, field elements and
// array indices of the Reed-Solomon code are all combined with it.
module BitXor {

  function Pow2(k: nat): (r: nat)
    ensures r >= 1
  {
    if k == 0 then 1 else 2 * Pow2(k - 1)
  }

  lemma PowZero()
    ensures Pow2(0) == 1
  {
  }

  lemma PowStep(k: nat)
    requires k > 0
    ensures Pow2(k) == 2 * Pow2(k - 1)
  {
  }

  // Bitwise exclusive or, from the low bit up.
  function Xor(a: nat, b: nat): nat {
    if a == 0 then b
    else if b == 0 then a
    else (if a % 2 == b % 2 then 0 else 1) + 2 * Xor(a / 2, b / 2)
  }

  lemma XorStep(a: nat, b: nat)
    ensures Xor(a, b) / 2 == Xor(a / 2, b / 2)
    ensures Xor(a, b) % 2 == if a % 2 == b % 2 then 0 else 1
  {
    if a == 0 || b == 0 {
      assert Xor(a, b) == a + b;
      assert Xor(a / 2, b / 2) == a / 2 + b / 2;
    }
  }

  // Two numbers with the same low bit and the same remaining bits are equal.
  lemma SameBits(a: nat, b: nat)
    requires a / 2 == b / 2 && a % 2 == b % 2
    ensures a == b
  {
  }

  lemma XorZero(a: nat)
    ensures Xor(0, a) == a && Xor(a, 0) == a
  {
  }

  lemma {:induction false} XorSelf(a: nat)
    ensures Xor(a, a) == 0
  {
    if a != 0 {
      XorSelf(a / 2);
    }
  }

  lemma {:induction false} XorCommutes(a: nat, b: nat)
    ensures Xor(a, b) == Xor(b, a)
  {
    if a != 0 && b != 0 {
      XorCommutes(a / 2, b / 2);
    }
  }

  lemma {:induction false} XorAssociates(a: nat, b: nat, c: nat)
    ensures Xor(Xor(a, b), c) == Xor(a, Xor(b, c))
  {
    if a != 0 && b != 0 && c != 0 {
      XorAssociates(a / 2, b / 2, c / 2);
      XorStep(a, b);
      XorStep(b, c);
      XorStep(Xor(a, b), c);
      XorStep(a, Xor(b, c));
      SameBits(Xor(Xor(a, b), c), Xor(a, Xor(b, c)));
    }
  }

  // Combining with the same value twice changes nothing.
  lemma XorCancels(a: nat, b: nat)
    ensures Xor(Xor(a, b), b) == a
    ensures Xor(b, Xor(b, a)) == a
  {
    XorAssociates(a, b, b);
    XorAssociates(b, b, a);
    XorSelf(b);
  }

  lemma XorIsZero(a: nat, b: nat)
    ensures Xor(a, b) == 0 <==> a == b
  {
    XorSelf(a);
    XorCancels(a, b);
  }

  lemma XorExchange(a: nat, b: nat, c: nat, d: nat)
    ensures Xor(Xor(a, b), Xor(c, d)) == Xor(Xor(a, c), Xor(b, d))
  {
    XorAssociates(a, b, Xor(c, d));
    XorAssociates(b, c, d);
    XorCommutes(b, c);
    XorAssociates(c, b, d);
    XorAssociates(a, c, Xor(b, d));
  }

  lemma {:induction false} XorBound(a: nat, b: nat, k: nat)
    requires a < Pow2(k) && b < Pow2(k)
    ensures Xor(a, b) < Pow2(k)
  {
    if a != 0 && b != 0 {
      XorBound(a / 2, b / 2, k - 1);
    }
  }

  lemma XorDouble(a: nat, b: nat)
    ensures Xor(2 * a, 2 * b) == 2 * Xor(a, b)
  {
    XorStep(2 * a, 2 * b);
    SameBits(Xor(2 * a, 2 * b), 2 * Xor(a, b));
  }

  // Setting a bit above a k-bit number adds it.
  lemma {:induction false} XorPow2(a: nat, k: nat)
    requires a < Pow2(k)
    ensures Xor(Pow2(k), a) == Pow2(k) + a
  {
    hide Xor, Pow2;
    if k == 0 {
      PowZero();
      XorZero(1);
    } else {
      PowStep(k);
      XorPow2(a / 2, k - 1);
      XorStep(Pow2(k), a);
      SameBits(Xor(Pow2(k), a), Pow2(k) + a);
    }
  }

  // How the bit above two k-bit numbers behaves.
  lemma XorTopBit(a: nat, b: nat, k: nat)
    requires a < Pow2(k) && b < Pow2(k)
    ensures Xor(Pow2(k) + a, b) == Pow2(k) + Xor(a, b)
    ensures Xor(a, Pow2(k) + b) == Pow2(k) + Xor(a, b)
    ensures Xor(Pow2(k) + a, Pow2(k) + b) == Xor(a, b)
  {
    hide *;
    var p := Pow2(k);
    XorPow2(a, k);
    XorPow2(b, k);
    XorBound(a, b, k);
    XorPow2(Xor(a, b), k);
    XorAssociates(p, a, b);
    XorAssociates(a, p, b);
    XorCommutes(a, p);
    XorExchange(p, a, p, b);
    XorSelf(p);
    XorZero(Xor(a, b));
  }
}
