// Divisibility: the numbers at which something recurs are the multiples of the least of them,
// and a prime that divides a product divides a factor.
module Periods {

  import opened Modular

  ghost predicate Closed(s: nat -> bool) {
    forall a: nat, b: nat | a <= b && s(a) && s(b) :: s(b - a)
  }

  ghost predicate Least(s: nat -> bool, d: nat) {
    0 < d && s(d) && forall k: nat | 0 < k < d :: !s(k)
  }

  lemma {:induction false} LeastOf(s: nat -> bool, n: nat) returns (d: nat)
    requires s(n) && n > 0
    ensures Least(s, d) && d <= n
    decreases n
  {
    if k: nat :| 0 < k < n && s(k) {
      d := LeastOf(s, k);
    } else {
      d := n;
    }
  }

  lemma {:induction false} LeastDivides(s: nat -> bool, d: nat, k: nat)
    requires Closed(s) && Least(s, d) && s(k)
    ensures k % d == 0
    decreases k
  {
    if k >= d {
      LeastDivides(s, d, k - d);
      CongShift(k, -1, d);
    } else {
      ModUnique(k, 0, k, d);
    }
  }

  ghost predicate Prime(p: nat) {
    p > 1 && forall m: nat | 1 < m < p :: p % m != 0
  }

  lemma Quotient(n: nat, d: nat) returns (q: nat)
    requires d > 0 && n % d == 0
    ensures n == d * q && q <= n
  {
    q := n / d;
    MulMonotone(1, d, q);
  }

  lemma Multiple(d: nat, q: nat)
    requires d > 0
    ensures (d * q) % d == 0
  {
    ModUnique(d * q, q, 0, d);
  }

  // The factors that make a multiple of p of b.
  ghost predicate Cofactor(p: nat, b: nat, k: nat) {
    p > 0 && (k * b) % p == 0
  }

  ghost function Cofactors(p: nat, b: nat): nat -> bool {
    (k: nat) => Cofactor(p, b, k)
  }

  lemma CofactorsClosed(p: nat, b: nat)
    requires p > 0
    ensures Closed(Cofactors(p, b))
  {
    hide Cofactor;
    var s := Cofactors(p, b);
    forall x: nat, y: nat | x <= y && s(x) && s(y) ensures s(y - x) {
      CofactorsDiffer(p, b, x, y);
    }
  }

  lemma CofactorsDiffer(p: nat, b: nat, x: nat, y: nat)
    requires x <= y && Cofactor(p, b, x) && Cofactor(p, b, y)
    ensures Cofactor(p, b, y - x)
  {
    CongOfZero(y * b, p);
    CongOfZero(x * b, p);
    CongSum(y * b, 0, x * b, 0, p);
    Distribute(y, x, b);
    CongOfZero(y * b - x * b, p);
  }

  lemma CongOfZero(a: int, p: int)
    requires p > 0
    ensures Cong(a, 0, p) <==> a % p == 0
  {
    ModUnique(0, 0, 0, p);
  }

  lemma Distribute(y: int, x: int, b: int)
    ensures (y - x) * b == y * b - x * b
  {
  }

  // Euclid's lemma.
  lemma PrimeDivides(p: nat, a: nat, b: nat)
    requires Prime(p) && (a * b) % p == 0
    ensures a % p == 0 || b % p == 0
  {
    hide Closed;
    var s := Cofactors(p, b);
    CofactorsClosed(p, b);
    Multiple(p, b);
    var d := LeastOf(s, p);
    LeastDivides(s, d, p);
    LeastDivides(s, d, a);
    assert d < p ==> d == 1;
    if d == 1 {
      assert 1 * b == b;
    }
  }

  function Product(ps: seq<nat>): nat {
    if ps == [] then 1 else ps[0] * Product(ps[1..])
  }

  // A factor of a product of primes that leaves something over leaves over one of the primes.
  lemma {:induction false} PrimeLeft(d: nat, e: nat, ps: seq<nat>) returns (p: nat)
    requires d * e == Product(ps) && e > 1 && forall q | q in ps :: Prime(q)
    ensures p in ps && Prime(p) && e % p == 0
    decreases |ps|
  {
    if ps == [] {
      MulMonotone(1, d, e);
      assert false;
    } else {
      p := ps[0];
      var rest := Product(ps[1..]);
      Multiple(p, rest);
      PrimeDivides(p, d, e);
      if e % p != 0 {
        var d' := Quotient(d, p);
        assert p * (d' * e) == p * rest;
        SameFactor(p, d' * e, rest);
        p := PrimeLeft(d', e, ps[1..]);
      }
    }
  }

  lemma SameFactor(p: nat, a: nat, b: nat)
    requires p > 0 && p * a == p * b
    ensures a == b
  {
    if a < b {
      MulMonotone(1, b - a, p);
    }
    if b < a {
      MulMonotone(1, a - b, p);
    }
  }

  // A composite number has a factor that its square root bounds.
  lemma PrimeUpTo16(p: nat)
    requires 1 < p < 289 && forall m: nat | 1 < m < 17 && m < p :: p % m != 0
    ensures Prime(p)
  {
    forall m: nat | 1 < m < p ensures p % m != 0 {
      if p % m == 0 && m >= 17 {
        var q := Quotient(p, m);
        if q >= 17 {
          MulMonotone(17, q, m);
        }
        assert p == q * m;
        Multiple(q, m);
        if q <= 1 {
          MulMonotone(q, 1, m);
        }
      }
    }
  }

  lemma FermatPrimes()
    ensures Prime(3) && Prime(5) && Prime(17) && Prime(257)
  {
    PrimeUpTo16(17);
    PrimeUpTo16(257);
  }
}
