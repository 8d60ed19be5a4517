// The Walsh-Hadamard transform over the integers, by halves and as a signed sum, and the
// convolution theorem for exclusive or on which the error locator rests.
module Walsh {

  import opened BitXor

  // ---------- Sequences of integers ----------

  function Plus(a: seq<int>, b: seq<int>): (r: seq<int>)
    requires |a| == |b|
    ensures |r| == |a|
  {
    seq(|a|, i requires 0 <= i < |a| && |a| == |b| => a[i] + b[i])
  }

  function Minus(a: seq<int>, b: seq<int>): (r: seq<int>)
    requires |a| == |b|
    ensures |r| == |a|
  {
    seq(|a|, i requires 0 <= i < |a| && |a| == |b| => a[i] - b[i])
  }

  function Times(a: seq<int>, b: seq<int>): (r: seq<int>)
    requires |a| == |b|
    ensures |r| == |a|
  {
    seq(|a|, i requires 0 <= i < |a| && |a| == |b| => a[i] * b[i])
  }

  function Scale(c: int, a: seq<int>): (r: seq<int>)
    ensures |r| == |a|
  {
    seq(|a|, i requires 0 <= i < |a| => c * a[i])
  }

  lemma JoinHalves(a: seq<int>, b: seq<int>)
    ensures (a + b)[..|a|] == a && (a + b)[|a|..] == b
  {
  }

  lemma PlusHalves(a: seq<int>, b: seq<int>, h: nat)
    requires |a| == |b| && h <= |a|
    ensures Plus(a, b)[..h] == Plus(a[..h], b[..h]) && Plus(a, b)[h..] == Plus(a[h..], b[h..])
    ensures Minus(a, b)[..h] == Minus(a[..h], b[..h]) && Minus(a, b)[h..] == Minus(a[h..], b[h..])
    ensures Times(a, b)[..h] == Times(a[..h], b[..h]) && Times(a, b)[h..] == Times(a[h..], b[h..])
  {
  }

  // ---------- The transform ----------

  function Wht(a: seq<int>, k: nat): (r: seq<int>)
    requires |a| == Pow2(k)
    ensures |r| == |a|
  {
    if k == 0 then a
    else
      var h := Pow2(k - 1);
      var x, y := Wht(a[..h], k - 1), Wht(a[h..], k - 1);
      Plus(x, y) + Minus(x, y)
  }

  lemma WhtStep(a: seq<int>, k: nat, h: nat)
    requires k > 0 && h == Pow2(k - 1) && |a| == Pow2(k)
    ensures |a| == 2 * h
    ensures Wht(a, k) == Plus(Wht(a[..h], k - 1), Wht(a[h..], k - 1)) + Minus(Wht(a[..h], k - 1), Wht(a[h..], k - 1))
  {
  }

  lemma WhtBase(a: seq<int>)
    requires |a| == 1
    ensures Wht(a, 0) == a
  {
  }

  lemma PlusMinusRegroup(x: seq<int>, y: seq<int>, z: seq<int>, w: seq<int>)
    requires |x| == |y| == |z| == |w|
    ensures Plus(Plus(x, y), Plus(z, w)) == Plus(Plus(x, z), Plus(y, w))
    ensures Minus(Plus(x, y), Plus(z, w)) == Plus(Minus(x, z), Minus(y, w))
    ensures Plus(Minus(x, y), Minus(z, w)) == Minus(Plus(x, z), Plus(y, w))
    ensures Minus(Minus(x, y), Minus(z, w)) == Minus(Minus(x, z), Minus(y, w))
  {
  }

  lemma JoinPlus(a: seq<int>, a': seq<int>, b: seq<int>, b': seq<int>)
    requires |a| == |b| && |a'| == |b'|
    ensures Plus(a + a', b + b') == Plus(a, b) + Plus(a', b')
    ensures Minus(a + a', b + b') == Minus(a, b) + Minus(a', b')
    ensures Times(a + a', b + b') == Times(a, b) + Times(a', b')
  {
  }

  lemma {:induction false} WhtLinear(a: seq<int>, b: seq<int>, k: nat)
    requires |a| == |b| == Pow2(k)
    ensures Wht(Plus(a, b), k) == Plus(Wht(a, k), Wht(b, k))
    ensures Wht(Minus(a, b), k) == Minus(Wht(a, k), Wht(b, k))
  {
    hide *;
    if k == 0 {
      PowZero();
      WhtBase(a);
      WhtBase(b);
      WhtBase(Plus(a, b));
      WhtBase(Minus(a, b));
    } else {
      var h := Pow2(k - 1);
      PowStep(k);
      WhtStep(a, k, h);
      WhtStep(b, k, h);
      WhtStep(Plus(a, b), k, h);
      WhtStep(Minus(a, b), k, h);
      PlusHalves(a, b, h);
      WhtLinear(a[..h], b[..h], k - 1);
      WhtLinear(a[h..], b[h..], k - 1);
      var x, y, z, w := Wht(a[..h], k - 1), Wht(a[h..], k - 1), Wht(b[..h], k - 1), Wht(b[h..], k - 1);
      PlusMinusRegroup(x, y, z, w);
      PlusMinusRegroup(x, z, y, w);
      JoinPlus(Plus(x, y), Minus(x, y), Plus(z, w), Minus(z, w));
    }
  }

  lemma ScaleTwice(c: int, x: seq<int>, y: seq<int>)
    requires |x| == |y|
    ensures Plus(Scale(c, x), Scale(c, x)) == Scale(2 * c, x)
    ensures Minus(Plus(x, y), Minus(x, y)) == Scale(2, y) && Plus(Plus(x, y), Minus(x, y)) == Scale(2, x)
    ensures Scale(c, x + y) == Scale(c, x) + Scale(c, y)
    ensures Scale(2, Scale(c, x)) == Scale(2 * c, x)
  {
    forall i | 0 <= i < |x| ensures 2 * (c * x[i]) == 2 * c * x[i] {
    }
  }

  // Two passes multiply by the number of entries.
  lemma {:induction false} WhtTwice(a: seq<int>, k: nat)
    requires |a| == Pow2(k)
    ensures Wht(Wht(a, k), k) == Scale(Pow2(k), a)
  {
    hide *;
    if k == 0 {
      PowZero();
      WhtBase(a);
      ScaleOne(a);
    } else {
      var h := Pow2(k - 1);
      PowStep(k);
      WhtStep(a, k, h);
      var u, v := a[..h], a[h..];
      var x, y := Wht(u, k - 1), Wht(v, k - 1);
      JoinHalves(Plus(x, y), Minus(x, y));
      WhtStep(Wht(a, k), k, h);
      WhtLinear(Plus(x, y), Minus(x, y), k - 1);
      ScaleTwice(h, x, y);
      WhtTwice(u, k - 1);
      WhtTwice(v, k - 1);
      WhtLinear(x, x, k - 1);
      WhtLinear(y, y, k - 1);
      ScaleTwice(1, x, x);
      ScaleTwice(1, y, y);
      ScaleOne(x);
      ScaleOne(y);
      ScaleTwice(h, u, u);
      ScaleTwice(h, v, v);
      ScaleTwice(2 * h, u, v);
      assert u + v == a;
    }
  }

  lemma ScaleOne(a: seq<int>)
    ensures Scale(1, a) == a
  {
  }

  // ---------- Convolution ----------

  // Entry i of the result is the sum of a[j] * b[i xor j] over all j.
  function Convolve(a: seq<int>, b: seq<int>, k: nat): (r: seq<int>)
    requires |a| == |b| == Pow2(k)
    ensures |r| == |a|
  {
    if k == 0 then Times(a, b)
    else
      var h := Pow2(k - 1);
      Plus(Convolve(a[..h], b[..h], k - 1), Convolve(a[h..], b[h..], k - 1))
      + Plus(Convolve(a[..h], b[h..], k - 1), Convolve(a[h..], b[..h], k - 1))
  }

  lemma ConvolveStep(a: seq<int>, b: seq<int>, k: nat, h: nat)
    requires k > 0 && h == Pow2(k - 1) && |a| == |b| == Pow2(k)
    ensures |a| == 2 * h
    ensures Convolve(a, b, k) == Plus(Convolve(a[..h], b[..h], k - 1), Convolve(a[h..], b[h..], k - 1))
                               + Plus(Convolve(a[..h], b[h..], k - 1), Convolve(a[h..], b[..h], k - 1))
  {
  }

  lemma ConvolveBase(a: seq<int>, b: seq<int>)
    requires |a| == |b| == 1
    ensures Convolve(a, b, 0) == Times(a, b)
  {
  }

  lemma Expand(x: seq<int>, y: seq<int>, z: seq<int>, w: seq<int>)
    requires |x| == |y| == |z| == |w|
    ensures Plus(Plus(Times(x, z), Times(y, w)), Plus(Times(x, w), Times(y, z))) == Times(Plus(x, y), Plus(z, w))
    ensures Minus(Plus(Times(x, z), Times(y, w)), Plus(Times(x, w), Times(y, z))) == Times(Minus(x, y), Minus(z, w))
  {
    forall i | 0 <= i < |x|
      ensures Plus(Plus(Times(x, z), Times(y, w)), Plus(Times(x, w), Times(y, z)))[i]
           == Times(Plus(x, y), Plus(z, w))[i]
      ensures Minus(Plus(Times(x, z), Times(y, w)), Plus(Times(x, w), Times(y, z)))[i]
           == Times(Minus(x, y), Minus(z, w))[i]
    {
      ExpandEntry(x[i], y[i], z[i], w[i]);
    }
  }

  lemma ExpandEntry(x: int, y: int, z: int, w: int)
    ensures x * z + y * w + (x * w + y * z) == (x + y) * (z + w)
    ensures x * z + y * w - (x * w + y * z) == (x - y) * (z - w)
  {
    assert (x + y) * (z + w) == (x + y) * z + (x + y) * w;
    assert (x - y) * (z - w) == (x - y) * z - (x - y) * w;
  }

  // The transform turns convolution into the product entry by entry.
  lemma {:induction false} WhtConvolve(a: seq<int>, b: seq<int>, k: nat)
    requires |a| == |b| == Pow2(k)
    ensures Wht(Convolve(a, b, k), k) == Times(Wht(a, k), Wht(b, k))
  {
    hide *;
    if k == 0 {
      PowZero();
      WhtBase(a);
      WhtBase(b);
      ConvolveBase(a, b);
      WhtBase(Times(a, b));
    } else {
      var h := Pow2(k - 1);
      PowStep(k);
      WhtStep(a, k, h);
      WhtStep(b, k, h);
      ConvolveStep(a, b, k, h);
      var p, q, u, v := a[..h], a[h..], b[..h], b[h..];
      WhtConvolve(p, u, k - 1);
      WhtConvolve(q, v, k - 1);
      WhtConvolve(p, v, k - 1);
      WhtConvolve(q, u, k - 1);
      var c := Plus(Convolve(p, u, k - 1), Convolve(q, v, k - 1));
      var d := Plus(Convolve(p, v, k - 1), Convolve(q, u, k - 1));
      WhtLinear(Convolve(p, u, k - 1), Convolve(q, v, k - 1), k - 1);
      WhtLinear(Convolve(p, v, k - 1), Convolve(q, u, k - 1), k - 1);
      JoinHalves(c, d);
      WhtStep(c + d, k, h);
      var x, y, z, w := Wht(p, k - 1), Wht(q, k - 1), Wht(u, k - 1), Wht(v, k - 1);
      Expand(x, y, z, w);
      JoinPlus(Plus(x, y), Minus(x, y), Plus(z, w), Minus(z, w));
    }
  }

  // Transform, multiply, transform again.
  lemma LocatorIdentity(a: seq<int>, b: seq<int>, k: nat)
    requires |a| == |b| == Pow2(k)
    ensures Wht(Times(Wht(a, k), Wht(b, k)), k) == Scale(Pow2(k), Convolve(a, b, k))
  {
    WhtConvolve(a, b, k);
    WhtTwice(Convolve(a, b, k), k);
  }

  // ---------- Sums ----------

  function Sigma(f: int -> int, n: nat): int {
    if n == 0 then 0 else Sigma(f, n - 1) + f(n - 1)
  }

  // The first half of f is x and the second c times y.
  lemma {:induction false} SigmaHalves(f: int -> int, x: int -> int, y: int -> int, h: nat, n: nat, c: int)
    requires n <= h && forall j | 0 <= j < h :: f(j) == x(j) && f(h + j) == c * y(j)
    ensures Sigma(f, h + n) == Sigma(x, h) + c * Sigma(y, n)
  {
    if n > 0 {
      SigmaHalves(f, x, y, h, n - 1, c);
      assert f(h + (n - 1)) == c * y(n - 1);
      assert c * (Sigma(y, n - 1) + y(n - 1)) == c * Sigma(y, n - 1) + c * y(n - 1);
    } else {
      SigmaSame(f, x, h);
    }
  }

  lemma {:induction false} SigmaSame(f: int -> int, g: int -> int, n: nat)
    requires forall j | 0 <= j < n :: f(j) == g(j)
    ensures Sigma(f, n) == Sigma(g, n)
  {
    if n > 0 {
      SigmaSame(f, g, n - 1);
    }
  }

  // Entry j of a, and 0 past its end.
  function Entry(a: seq<int>, j: int): int {
    if 0 <= j < |a| then a[j] else 0
  }

  // ---------- The transform as a signed sum ----------

  function And(i: nat, j: nat): nat {
    if i == 0 || j == 0 then 0 else (if i % 2 == 1 && j % 2 == 1 then 1 else 0) + 2 * And(i / 2, j / 2)
  }

  function PopCount(i: nat): nat {
    if i == 0 then 0 else i % 2 + PopCount(i / 2)
  }

  // The parity of the bits that i and j share decides the sign.
  function Sign(i: nat, j: nat): int {
    if PopCount(And(i, j)) % 2 == 0 then 1 else -1
  }

  lemma PopCountAnd(i: nat, j: nat)
    requires i > 0 && j > 0
    ensures PopCount(And(i, j)) == (if i % 2 == 1 && j % 2 == 1 then 1 else 0) + PopCount(And(i / 2, j / 2))
  {
    var s := And(i, j);
    assert s / 2 == And(i / 2, j / 2) && s % 2 == if i % 2 == 1 && j % 2 == 1 then 1 else 0;
  }

  lemma {:induction false} PopCountTop(i: nat, j: nat, k: nat)
    requires i < Pow2(k) && j < Pow2(k)
    ensures PopCount(And(i + Pow2(k), j)) == PopCount(And(i, j)) == PopCount(And(i, j + Pow2(k)))
    ensures PopCount(And(i + Pow2(k), j + Pow2(k))) == PopCount(And(i, j)) + 1
    decreases k
  {
    hide And, PopCount;
    AndZero(i);
    AndZero(j);
    AndZero(i + Pow2(k));
    AndZero(j + Pow2(k));
    if k == 0 {
      PowZero();
      PopCountAnd(1, 1);
      AndZero(0);
    } else {
      PowStep(k);
      PopCountTop(i / 2, j / 2, k - 1);
      PopCountAnd(i + Pow2(k), j + Pow2(k));
      if j > 0 {
        PopCountAnd(i + Pow2(k), j);
      }
      if i > 0 {
        PopCountAnd(i, j + Pow2(k));
      }
      if i > 0 && j > 0 {
        PopCountAnd(i, j);
      }
      AndZero(i / 2);
      AndZero(j / 2);
      AndZero(i / 2 + Pow2(k - 1));
      AndZero(j / 2 + Pow2(k - 1));
    }
  }

  lemma AndZero(i: nat)
    ensures And(i, 0) == 0 == And(0, i) && PopCount(0) == 0
  {
  }

  lemma SignTop(i: nat, j: nat, k: nat)
    requires i < Pow2(k) && j < Pow2(k)
    ensures Sign(i + Pow2(k), j) == Sign(i, j) == Sign(i, j + Pow2(k))
    ensures Sign(i + Pow2(k), j + Pow2(k)) == -Sign(i, j)
  {
    hide And, PopCount;
    PopCountTop(i, j, k);
  }

  function Signed(a: seq<int>, i: nat): int -> int {
    j => if j >= 0 then Sign(i, j) * Entry(a, j) else 0
  }

  lemma SignedHalves(a: seq<int>, k: nat, h: nat, i: nat, j: nat)
    requires |a| == 2 * h && h == Pow2(k) && i < 2 * h && j < h
    ensures var i0, c := if i < h then i else i - h, if i < h then 1 else -1;
            Signed(a, i)(j) == Signed(a[..h], i0)(j) && Signed(a, i)(h + j) == c * Signed(a[h..], i0)(j)
  {
    hide Sign, Pow2;
    SignTop(if i < h then i else i - h, j, k);
  }

  // Entry i is the sum of the entries of a, each with the sign of i and its index.
  lemma {:induction false} WhtIsSum(a: seq<int>, k: nat, i: nat)
    requires |a| == Pow2(k) && i < |a|
    ensures Wht(a, k)[i] == Sigma(Signed(a, i), |a|)
  {
    hide Wht, Sigma, Pow2, Signed;
    if k == 0 {
      PowZero();
      WhtBase(a);
      SignedBase(a);
    } else {
      var h := Pow2(k - 1);
      PowStep(k);
      WhtStep(a, k, h);
      var i0, c := if i < h then i else i - h, if i < h then 1 else -1;
      WhtIsSum(a[..h], k - 1, i0);
      WhtIsSum(a[h..], k - 1, i0);
      forall j | 0 <= j < h
        ensures Signed(a, i)(j) == Signed(a[..h], i0)(j) && Signed(a, i)(h + j) == c * Signed(a[h..], i0)(j)
      {
        SignedHalves(a, k - 1, h, i, j);
      }
      SigmaHalves(Signed(a, i), Signed(a[..h], i0), Signed(a[h..], i0), h, h, c);
    }
  }

  lemma SignedBase(a: seq<int>)
    requires |a| == 1
    ensures Sigma(Signed(a, 0), 1) == a[0]
  {
    AndZero(0);
    assert Sigma(Signed(a, 0), 1) == Sigma(Signed(a, 0), 0) + Signed(a, 0)(0);
  }

  function Paired(a: seq<int>, b: seq<int>, i: nat): int -> int {
    j => if j >= 0 then Entry(a, j) * Entry(b, Xor(i, j)) else 0
  }

  lemma PairedHalves(a: seq<int>, b: seq<int>, k: nat, h: nat, i: nat, j: nat)
    requires |a| == |b| == 2 * h && h == Pow2(k) && i < 2 * h && j < h
    ensures i < h ==> Paired(a, b, i)(j) == Paired(a[..h], b[..h], i)(j)
    ensures i < h ==> Paired(a, b, i)(h + j) == Paired(a[h..], b[h..], i)(j)
    ensures i >= h ==> Paired(a, b, i)(j) == Paired(a[..h], b[h..], i - h)(j)
    ensures i >= h ==> Paired(a, b, i)(h + j) == Paired(a[h..], b[..h], i - h)(j)
  {
    hide Xor, Pow2;
    var i0 := if i < h then i else i - h;
    XorTopBit(i0, j, k);
    XorBound(i0, j, k);
  }

  lemma PairedBase(a: seq<int>, b: seq<int>)
    requires |a| == |b| == 1
    ensures Sigma(Paired(a, b, 0), 1) == a[0] * b[0]
  {
    XorZero(0);
    assert Sigma(Paired(a, b, 0), 1) == Sigma(Paired(a, b, 0), 0) + Paired(a, b, 0)(0);
  }

  // Entry i is the sum of a[j] * b[i xor j].
  lemma {:induction false} ConvolveIsSum(a: seq<int>, b: seq<int>, k: nat, i: nat)
    requires |a| == |b| == Pow2(k) && i < |a|
    ensures Convolve(a, b, k)[i] == Sigma(Paired(a, b, i), |a|)
  {
    hide Convolve, Sigma, Pow2, Paired;
    if k == 0 {
      PowZero();
      ConvolveBase(a, b);
      PairedBase(a, b);
    } else {
      var h := Pow2(k - 1);
      PowStep(k);
      ConvolveStep(a, b, k, h);
      var i0 := if i < h then i else i - h;
      var u, v := if i < h then b[..h] else b[h..], if i < h then b[h..] else b[..h];
      ConvolveIsSum(a[..h], u, k - 1, i0);
      ConvolveIsSum(a[h..], v, k - 1, i0);
      forall j | 0 <= j < h
        ensures Paired(a, b, i)(j) == Paired(a[..h], u, i0)(j)
        ensures Paired(a, b, i)(h + j) == 1 * Paired(a[h..], v, i0)(j)
      {
        PairedHalves(a, b, k - 1, h, i, j);
      }
      SigmaHalves(Paired(a, b, i), Paired(a[..h], u, i0), Paired(a[h..], v, i0), h, h, 1);
    }
  }
}
