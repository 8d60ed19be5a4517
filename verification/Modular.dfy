// Congruence of integers modulo p.
module Modular {

  predicate Cong(a: int, b: int, p: int)
    requires p > 0
  {
    a % p == b % p
  }

  lemma ModUnique(n: int, q: int, r: int, p: int)
    requires p > 0 && n == q * p + r && 0 <= r < p
    ensures n % p == r && n / p == q
  {
    var d, m := n / p, n % p;
    assert n == d * p + m && 0 <= m < p;
    assert (q - d) * p == m - r;
    if q > d {
      MulMonotone(1, q - d, p);
    }
    if q < d {
      MulMonotone(1, d - q, p);
    }
  }

  lemma MulMonotone(a: int, b: int, p: int)
    requires a <= b && p >= 0
    ensures a * p <= b * p
  {
  }

  lemma CongShift(a: int, k: int, p: int)
    requires p > 0
    ensures Cong(a + k * p, a, p)
  {
    assert a + k * p == (a / p + k) * p + a % p;
    ModUnique(a + k * p, a / p + k, a % p, p);
  }

  lemma CongDifference(a: int, b: int, p: int) returns (k: int)
    requires p > 0 && Cong(a, b, p)
    ensures a == b + k * p
  {
    k := a / p - b / p;
  }

  lemma CongSum(a: int, b: int, c: int, d: int, p: int)
    requires p > 0 && Cong(a, b, p) && Cong(c, d, p)
    ensures Cong(a + c, b + d, p) && Cong(a - c, b - d, p)
  {
    hide Cong;
    var j := CongDifference(a, b, p);
    var k := CongDifference(c, d, p);
    assert a + c == (b + d) + (j + k) * p;
    CongShift(b + d, j + k, p);
    assert a - c == (b - d) + (j - k) * p;
    CongShift(b - d, j - k, p);
  }

  lemma ProductDifference(a: int, b: int, c: int, d: int, p: int) returns (m: int)
    requires p > 0 && Cong(a, b, p) && Cong(c, d, p)
    ensures a * c == b * d + m * p
  {
    hide Cong;
    var j := CongDifference(a, b, p);
    var k := CongDifference(c, d, p);
    MulExpand(b, j, d, k, p);
    m := b * k + j * d + j * k * p;
  }

  lemma CongProduct(a: int, b: int, c: int, d: int, p: int)
    requires p > 0 && Cong(a, b, p) && Cong(c, d, p)
    ensures Cong(a * c, b * d, p)
  {
    hide Cong;
    var m := ProductDifference(a, b, c, d, p);
    CongShift(b * d, m, p);
  }

  lemma CongArithmetic(a: int, b: int, c: int, d: int, p: int)
    requires p > 0 && Cong(a, b, p) && Cong(c, d, p)
    ensures Cong(a + c, b + d, p)
    ensures Cong(a - c, b - d, p)
    ensures Cong(a * c, b * d, p)
  {
    hide Cong;
    CongSum(a, b, c, d, p);
    CongProduct(a, b, c, d, p);
  }

  lemma MulExpand(b: int, j: int, d: int, k: int, p: int)
    ensures (b + j * p) * (d + k * p) == b * d + (b * k + j * d + j * k * p) * p
  {
    assert (b + j * p) * (d + k * p) == b * d + b * (k * p) + (j * p) * d + (j * p) * (k * p);
    assert (j * p) * (k * p) == (j * k * p) * p;
    assert b * (k * p) == (b * k) * p && (j * p) * d == (j * d) * p;
  }

  lemma DoubleOver(j: nat, b: nat)
    requires b > 0
    ensures (2 * j) / (2 * b) == j / b && (2 * j + 1) / (2 * b) == j / b
  {
    var q, r := j / b, j % b;
    assert j == q * b + r && 2 * j == q * (2 * b) + 2 * r;
    ModUnique(2 * j, q, 2 * r, 2 * b);
    ModUnique(2 * j + 1, q, 2 * r + 1, 2 * b);
  }
}
