// Recovering a value of a polynomial from its product with a locator: the formal derivative at a
// root of the locator.
module Interpolation {

  import opened BitXor
  import opened Modular
  import opened NovelBasis

  // ---------- The derivative on coefficients ----------

  // Coefficient j combined with coefficient j + 2^b for each clear bit b of j below k.
  function DerivedAt<E(!new)>(n: Novel<E>, w: seq<E>, j: nat, k: nat): E
    requires j < |w|
  {
    if k == 0 then w[j]
    else
      var b := Pow2(k - 1);
      if j / b % 2 == 0 && j + b < |w| then n.Add(DerivedAt(n, w, j, k - 1), w[j + b]) else DerivedAt(n, w, j, k - 1)
  }

  function Derived<E(!new)>(n: Novel<E>, w: seq<E>, k: nat): (r: seq<E>)
    ensures |r| == |w|
  {
    seq(|w|, j requires 0 <= j < |w| => DerivedAt(n, w, j, k))
  }

  lemma DerivedStep<E(!new)>(n: Novel<E>, w: seq<E>, j: nat, k: nat, b: nat)
    requires j < |w| && k > 0 && b == Pow2(k - 1)
    ensures DerivedAt(n, w, j, k) == if j / b % 2 == 0 && j + b < |w| then n.Add(DerivedAt(n, w, j, k - 1), w[j + b])
                                  else DerivedAt(n, w, j, k - 1)
  {
  }

  lemma DerivedNone<E(!new)>(n: Novel<E>, w: seq<E>, j: nat)
    requires j < |w|
    ensures DerivedAt(n, w, j, 0) == w[j]
  {
  }

  lemma PartAt<E>(w: seq<E>, j: nat)
    requires 2 * j + 1 < |w|
    ensures Even(w)[j] == w[2 * j] && Odd(w)[j] == w[2 * j + 1]
  {
  }

  lemma {:induction false} DerivedEven<E(!new)>(n: Novel<E>, w: seq<E>, j: nat, k: nat)
    requires n.Ready() && |w| % 2 == 0 && 2 * j + 1 < |w| && k > 0
    ensures DerivedAt(n, w, 2 * j, k) == n.Add(DerivedAt(n, Even(w), j, k - 1), Odd(w)[j])
    decreases k
  {
    hide *;
    var b := Pow2(k - 1);
    DerivedStep(n, w, 2 * j, k, b);
    PartAt(w, j);
    if k == 1 {
      PowZero();
      OverOne(2 * j);
      DerivedNone(n, w, 2 * j);
      DerivedNone(n, Even(w), j);
    } else {
      PowStep(k - 1);
      var c := Pow2(k - 2);
      DerivedEven(n, w, j, k - 1);
      DerivedStep(n, Even(w), j, k - 1, c);
      DoubleOver(j, c);
      if j + c < |w| / 2 {
        PartAt(w, j + c);
        AddLast(n, DerivedAt(n, Even(w), j, k - 2), Odd(w)[j], Even(w)[j + c]);
      }
    }
  }

  lemma {:induction false} DerivedOdd<E(!new)>(n: Novel<E>, w: seq<E>, j: nat, k: nat)
    requires n.Ready() && |w| % 2 == 0 && 2 * j + 1 < |w| && k > 0
    ensures DerivedAt(n, w, 2 * j + 1, k) == DerivedAt(n, Odd(w), j, k - 1)
    decreases k
  {
    hide *;
    var b := Pow2(k - 1);
    DerivedStep(n, w, 2 * j + 1, k, b);
    PartAt(w, j);
    if k == 1 {
      PowZero();
      OverOne(2 * j + 1);
      DerivedNone(n, w, 2 * j + 1);
      DerivedNone(n, Odd(w), j);
    } else {
      PowStep(k - 1);
      var c := Pow2(k - 2);
      DerivedOdd(n, w, j, k - 1);
      DerivedStep(n, Odd(w), j, k - 1, c);
      DoubleOver(j, c);
      if j + c < |w| / 2 {
        PartAt(w, j + c);
      }
    }
  }

  lemma OverOne(j: nat)
    ensures j / 1 == j
  {
  }

  lemma AddLast<E(!new)>(n: Novel<E>, a: E, b: E, c: E)
    requires n.Ready()
    ensures n.Add(n.Add(a, b), c) == n.Add(n.Add(a, c), b)
  {
    hide Novel.Add;
    n.AddLaws(a, b, c);
    n.AddLaws(a, c, b);
    n.AddLaws(b, c, b);
  }

  lemma PartsOfDerived<E(!new)>(n: Novel<E>, w: seq<E>, k: nat)
    requires n.Ready() && k > 0 && |w| == Pow2(k)
    ensures |Even(w)| == |Odd(w)| == Pow2(k - 1)
    ensures Even(Derived(n, w, k)) == n.Sum(Derived(n, Even(w), k - 1), Odd(w))
    ensures Odd(Derived(n, w, k)) == Derived(n, Odd(w), k - 1)
  {
    hide DerivedAt, Novel.Add;
    PartLengths(w, k);
    forall j | 0 <= j < |w| / 2
      ensures Even(Derived(n, w, k))[j] == n.Sum(Derived(n, Even(w), k - 1), Odd(w))[j]
      ensures Odd(Derived(n, w, k))[j] == Derived(n, Odd(w), k - 1)[j]
    {
      DerivedEven(n, w, j, k);
      DerivedOdd(n, w, j, k);
    }
  }

  lemma DerivedOne<E(!new)>(n: Novel<E>, w: seq<E>)
    requires |w| == 1
    ensures Derived(n, w, 0) == w
  {
  }

  // The loop adds the derivative to the polynomial.
  lemma {:induction false} EvalDerived<E(!new)>(n: Novel<E>, w: seq<E>, k: nat, x: nat)
    requires n.Ready() && |w| == Pow2(k)
    ensures n.Eval(Derived(n, w, k), k, x) == n.Add(n.Eval(w, k, x), n.Slope(w, k, x))
    decreases k
  {
    hide *;
    if k == 0 {
      PowZero();
      DerivedOne(n, w);
      n.SlopeZero(w, x);
      n.AddLaws(n.Eval(w, 0, x), n.Eval(w, 0, x), n.Eval(w, 0, x));
    } else {
      PowStep(k);
      PartsOfDerived(n, w, k);
      n.EvalStep(w, k, x);
      n.SlopeStep(w, k, x);
      n.EvalStep(Derived(n, w, k), k, x);
      var y := x / 2;
      n.EvalSum(Derived(n, Even(w), k - 1), Odd(w), k - 1, y);
      EvalDerived(n, Even(w), k - 1, y);
      EvalDerived(n, Odd(w), k - 1, y);
      var e, o, s, t := n.Eval(Even(w), k - 1, y), n.Eval(Odd(w), k - 1, y), n.Slope(Even(w), k - 1, y),
                        n.Slope(Odd(w), k - 1, y);
      n.Distributes(o, t, n.At(x));
      n.AddLaws(e, s, o);
      n.FourTerms(e, n.Add(s, o), n.Times(n.At(x), o), n.Times(n.At(x), t));
    }
  }

  // ---------- Values determine coefficients ----------

  lemma {:induction false} DropHalf(x: nat, b: nat)
    ensures Drop(x, b + 1) == Drop(x, b) / 2
  {
    hide Drop;
    DropStep(x, b + 1);
    DropStep(x, b);
    if b > 0 {
      DropHalf(x / 2, b - 1);
    } else {
      DropStep(x / 2, 0);
    }
  }

  lemma HalfCoeffs<E(!new)>(n: Novel<E>, w: seq<E>, h: nat)
    requires |w| == 2 * h
    ensures |w[..h]| == |w[h..]| == h
    ensures w[..h] == n.Zeros(h) && w[h..] == n.Zeros(h) ==> w == n.Zeros(2 * h)
  {
    if w[..h] == n.Zeros(h) && w[h..] == n.Zeros(h) {
      assert w == w[..h] + w[h..];
    }
  }

  ghost predicate Vanishes<E(!new)>(n: Novel<E>, w: seq<E>, k: nat, q: nat)
    requires |w| == Pow2(k)
  {
    forall x: nat :: x < n.order && Drop(x, k) == q ==> n.Eval(w, k, x) == n.zero
  }

  // A polynomial that vanishes on a block of 2^k points is zero.
  lemma {:induction false} ZeroCoeffs<E(!new)>(n: Novel<E>, w: seq<E>, k: nat, q: nat)
    requires n.Ready() && |w| == Pow2(k) && (q + 1) * Pow2(k) <= n.order
    requires Vanishes(n, w, k, q)
    ensures w == n.Zeros(|w|)
    decreases k
  {
    hide *;
    if k == 0 {
      PowZero();
      var x: nat := q;
      DropStep(x, 0);
      n.EvalZero(w, x);
      VanishesAt(n, w, 0, q, x);
      OnlyZero(n, w);
    } else {
      PowStep(k);
      var h := Pow2(k - 1);
      var a, b := w[..h], w[h..];
      HalfCoeffs(n, w, h);
      Blocks(q, h, n.order);
      var c: nat, d: nat := 2 * q, 2 * q + 1;
      HalfVanishes(n, w, k, q, c);
      HalfVanishes(n, w, k, q, d);
      ZeroCoeffs(n, n.Sum(a, n.Scaled(n.At(c), b)), k - 1, c);
      ZeroCoeffs(n, n.Sum(a, n.Scaled(n.At(d), b)), k - 1, d);
      BothZero(n, a, b, c, d);
    }
  }

  lemma OnlyZero<E(!new)>(n: Novel<E>, w: seq<E>)
    requires |w| == 1 && w[0] == n.zero
    ensures w == n.Zeros(|w|)
  {
  }

  lemma Blocks(q: nat, h: nat, order: nat)
    requires (q + 1) * (2 * h) <= order && h > 0
    ensures 2 * q + 1 < order && (2 * q + 1) * h <= order && (2 * q + 2) * h <= order
  {
    assert (q + 1) * (2 * h) == (2 * q + 2) * h;
    MulMonotone(2 * q + 1, 2 * q + 2, h);
    if 2 * q + 1 >= order {
      MulMonotone(order + 1, 2 * q + 2, h);
      MulMonotone(1, h, order + 1);
    }
  }

  lemma VanishesAt<E(!new)>(n: Novel<E>, w: seq<E>, k: nat, q: nat, x: nat)
    requires |w| == Pow2(k) && Vanishes(n, w, k, q) && x < n.order && Drop(x, k) == q
    ensures n.Eval(w, k, x) == n.zero
  {
  }

  // On the points of one half the polynomial is a combination of its halves.
  lemma HalfVanishes<E(!new)>(n: Novel<E>, w: seq<E>, k: nat, q: nat, c: nat)
    requires n.Ready() && k > 0 && |w| == Pow2(k) == 2 * Pow2(k - 1) && c / 2 == q && Vanishes(n, w, k, q)
    ensures Vanishes(n, n.Sum(w[..Pow2(k - 1)], n.Scaled(n.At(c), w[Pow2(k - 1)..])), k - 1, c)
  {
    hide Drop, Novel.Eval, Novel.Ready, Pow2, Novel.Sum, Novel.Scaled;
    var b := k - 1;
    var u := n.Sum(w[..Pow2(b)], n.Scaled(n.At(c), w[Pow2(b)..]));
    forall x: nat ensures x < n.order && Drop(x, b) == c ==> n.Eval(u, b, x) == n.zero {
      if x < n.order && Drop(x, b) == c {
        HalfVanishesAt(n, w, k, q, c, x);
      }
    }
  }

  lemma HalfVanishesAt<E(!new)>(n: Novel<E>, w: seq<E>, k: nat, q: nat, c: nat, x: nat)
    requires n.Ready() && k > 0 && |w| == Pow2(k) == 2 * Pow2(k - 1) && c / 2 == q && Vanishes(n, w, k, q)
    requires x < n.order && Drop(x, k - 1) == c
    ensures n.Eval(n.Sum(w[..Pow2(k - 1)], n.Scaled(n.At(c), w[Pow2(k - 1)..])), k - 1, x) == n.zero
  {
    hide *;
    var h := Pow2(k - 1);
    var a, b := w[..h], w[h..];
    DropHalf(x, k - 1);
    VanishesAt(n, w, k, q, x);
    n.EvalHalves(w, k, x);
    n.EvalSum(a, n.Scaled(n.At(c), b), k - 1, x);
    n.EvalScaled(n.At(c), b, k - 1, x);
  }

  // An odd number and the even one below it.
  lemma NextOdd<E(!new)>(n: Novel<E>, c: nat)
    requires n.Ready() && c < n.order && c % 2 == 0
    ensures n.At(c + 1) == n.Add(n.At(c), n.one)
  {
    hide Xor, Novel.Ready, Novel.At, Novel.Add;
    n.PointOne();
    n.Points(c, 1);
    XorStep(c, 1);
    XorZero(c / 2);
    SameBits(Xor(c, 1), c + 1);
  }

  lemma BothZero<E(!new)>(n: Novel<E>, a: seq<E>, b: seq<E>, c: nat, d: nat)
    requires n.Ready() && |a| == |b| && c < n.order && c % 2 == 0 && d == c + 1
    requires n.Sum(a, n.Scaled(n.At(c), b)) == n.Zeros(|a|) && n.Sum(a, n.Scaled(n.At(d), b)) == n.Zeros(|a|)
    ensures a == n.Zeros(|a|) && b == n.Zeros(|a|)
  {
    hide Novel.Add, Novel.Times, Novel.Ready;
    forall i | 0 <= i < |a| ensures a[i] == n.zero && b[i] == n.zero {
      assert n.Sum(a, n.Scaled(n.At(c), b))[i] == n.zero && n.Sum(a, n.Scaled(n.At(d), b))[i] == n.zero;
      PairZero(n, a[i], b[i], c, d);
    }
  }

  lemma PairZero<E(!new)>(n: Novel<E>, a: E, b: E, c: nat, d: nat)
    requires n.Ready() && c < n.order && c % 2 == 0 && d == c + 1
    requires n.Add(a, n.Times(n.At(c), b)) == n.zero && n.Add(a, n.Times(n.At(d), b)) == n.zero
    ensures a == n.zero && b == n.zero
  {
    hide *;
    NextOdd(n, c);
    var cb := n.Times(n.At(c), b);
    n.Distributes(n.At(c), n.one, b);
    n.TimesLaws(b, b, b);
    // d * b is c * b + b, so that b is the sum of both.
    n.AddLaws(a, cb, b);
    n.AddLaws(b, b, b);
    n.TimesLaws(n.At(c), n.zero, n.zero);
  }

  lemma SumIsZero<E(!new)>(n: Novel<E>, u: seq<E>, v: seq<E>)
    requires n.Ready() && |u| == |v| && n.Sum(u, v) == n.Zeros(|u|)
    ensures u == v
  {
    hide Novel.Add;
    forall i | 0 <= i < |u| ensures u[i] == v[i] {
      n.SumAt(u, v, i);
      n.AddLaws(u[i], v[i], v[i]);
      n.AddLaws(v[i], v[i], v[i]);
    }
  }

  // Two polynomials with the same values on the first 2^k points are the same.
  lemma SameValues<E(!new)>(n: Novel<E>, u: seq<E>, v: seq<E>, k: nat)
    requires n.Ready() && |u| == |v| == Pow2(k) <= n.order
    requires forall x: nat :: x < n.order && Drop(x, k) == 0 ==> n.Eval(u, k, x) == n.Eval(v, k, x)
    ensures u == v
  {
    hide Drop, Novel.Eval, Novel.Ready, Pow2, Novel.Sum, Novel.Add;
    forall x: nat ensures x < n.order && Drop(x, k) == 0 ==> n.Eval(n.Sum(u, v), k, x) == n.zero {
      n.EvalSum(u, v, k, x);
      n.AddLaws(n.Eval(u, k, x), n.Eval(u, k, x), n.Eval(u, k, x));
    }
    ZeroCoeffs(n, n.Sum(u, v), k, 0);
    SumIsZero(n, u, v);
  }

  // ---------- Roots ----------

  // (x + j) times a polynomial.
  function MulRoot<E(!new)>(n: Novel<E>, w: seq<E>, k: nat, j: nat): (r: seq<E>)
    requires |w| == Pow2(k)
    ensures |r| == |w|
  {
    n.Sum(n.MulX(w, k), n.Scaled(n.At(j), w))
  }

  lemma EvalRoot<E(!new)>(n: Novel<E>, w: seq<E>, k: nat, j: nat, x: nat)
    requires n.Ready() && |w| == Pow2(k) && n.Below(w, |w| - 1) && x < n.order && j < n.order
    ensures n.Eval(MulRoot(n, w, k, j), k, x) == n.Times(n.Add(n.At(x), n.At(j)), n.Eval(w, k, x))
    ensures n.Slope(MulRoot(n, w, k, j), k, j) == n.Eval(w, k, j)
  {
    hide Novel.Eval, Novel.Slope, Novel.Ready, Novel.Times, Novel.Sum, Novel.Add, Novel.MulX, Novel.Scaled;
    hide Novel.Below, Pow2;
    n.EvalSum(n.MulX(w, k), n.Scaled(n.At(j), w), k, x);
    n.EvalMulX(w, k, x);
    n.EvalScaled(n.At(j), w, k, x);
    n.Distributes(n.At(x), n.At(j), n.Eval(w, k, x));
    n.SlopeSum(n.MulX(w, k), n.Scaled(n.At(j), w), k, j);
    n.SlopeMulX(w, k, j);
    n.SlopeScaled(n.At(j), w, k, j);
    var js := n.Times(n.At(j), n.Slope(w, k, j));
    n.AddLaws(n.Eval(w, k, j), js, js);
    n.AddLaws(js, js, js);
    n.AddLaws(n.Eval(w, k, j), n.Eval(w, k, j), n.Eval(w, k, j));
  }

  lemma ScaledBelow<E(!new)>(n: Novel<E>, c: E, w: seq<E>, d: nat)
    requires n.Ready() && n.Below(w, d)
    ensures n.Below(n.Scaled(c, w), d)
  {
    hide Novel.Ready, Novel.Times;
    n.TimesLaws(c, c, c);
  }

  lemma RootBelow<E(!new)>(n: Novel<E>, w: seq<E>, k: nat, j: nat, d: nat)
    requires n.Ready() && |w| == Pow2(k) && n.Below(w, d)
    ensures n.Below(MulRoot(n, w, k, j), d + 1)
  {
    hide Novel.Ready, Pow2, Novel.Sum, Novel.MulX, Novel.Scaled, Novel.Below;
    n.MulXBelow(w, k, d);
    ScaledBelow(n, n.At(j), w, d);
    n.BelowMore(n.Scaled(n.At(j), w), d, d + 1);
    n.SumBelow(n.MulX(w, k), n.Scaled(n.At(j), w), d + 1);
  }

  function MulRoots<E(!new)>(n: Novel<E>, w: seq<E>, k: nat, js: seq<nat>): (r: seq<E>)
    requires |w| == Pow2(k)
    ensures |r| == |w|
  {
    if js == [] then w else MulRoot(n, MulRoots(n, w, k, js[..|js| - 1]), k, js[|js| - 1])
  }

  // The product of x + j over js.
  function Prod<E(!new)>(n: Novel<E>, js: seq<nat>, x: nat): E {
    if js == [] then n.one else n.Times(Prod(n, js[..|js| - 1], x), n.Add(n.At(x), n.At(js[|js| - 1])))
  }

  ghost predicate Numbers(js: seq<nat>, order: nat) {
    forall i | 0 <= i < |js| :: js[i] < order
  }

  lemma {:induction false} EvalRoots<E(!new)>(n: Novel<E>, w: seq<E>, k: nat, js: seq<nat>, d: nat, x: nat)
    requires n.Ready() && |w| == Pow2(k) && n.Below(w, d) && d + |js| <= |w| && x < n.order && Numbers(js, n.order)
    ensures n.Below(MulRoots(n, w, k, js), d + |js|)
    ensures n.Eval(MulRoots(n, w, k, js), k, x) == n.Times(Prod(n, js, x), n.Eval(w, k, x))
  {
    hide Novel.Eval, Novel.Ready, Novel.Times, Pow2, Novel.Add, MulRoot, Novel.Below;
    if js == [] {
      n.TimesLaws(n.Eval(w, k, x), n.zero, n.zero);
    } else {
      var last := |js| - 1;
      var h := MulRoots(n, w, k, js[..last]);
      EvalRoots(n, w, k, js[..last], d, x);
      RootBelow(n, h, k, js[last], d + last);
      n.BelowMore(h, d + last, |h| - 1);
      EvalRoot(n, h, k, js[last], x);
      n.TimesLaws(n.Add(n.At(x), n.At(js[last])), n.Times(Prod(n, js[..last], x), n.Eval(w, k, x)), n.zero);
      n.TimesLaws(Prod(n, js[..last], x), n.Add(n.At(x), n.At(js[last])), n.Eval(w, k, x));
      n.TimesLaws(n.Add(n.At(x), n.At(js[last])), Prod(n, js[..last], x), n.Eval(w, k, x));
    }
  }

  lemma ProductValue<E(!new)>(n: Novel<E>, f: seq<E>, k: nat, d: nat, js: seq<nat>, i: nat, x: nat)
    requires n.Ready() && |f| == Pow2(k) && n.Below(f, d) && d + |js| < |f|
    requires x < n.order && i < n.order && Numbers(js, n.order)
    ensures n.Eval(MulRoot(n, MulRoots(n, f, k, js), k, i), k, x)
         == n.Times(n.Times(n.Add(n.At(x), n.At(i)), Prod(n, js, x)), n.Eval(f, k, x))
  {
    hide *;
    var h := MulRoots(n, f, k, js);
    EvalRoots(n, f, k, js, d, x);
    n.BelowMore(h, d + |js|, |h| - 1);
    EvalRoot(n, h, k, i, x);
    n.TimesLaws(n.Add(n.At(x), n.At(i)), Prod(n, js, x), n.Eval(f, k, x));
  }

  // The polynomial with these values is the product.
  lemma ProductFound<E(!new)>(n: Novel<E>, f: seq<E>, g: seq<E>, k: nat, d: nat, js: seq<nat>, i: nat)
    requires n.Ready() && |f| == |g| == Pow2(k) <= n.order && n.Below(f, d) && d + |js| < |f|
    requires i < n.order && Numbers(js, n.order)
    requires forall x: nat :: x < n.order && Drop(x, k) == 0 ==>
      n.Eval(g, k, x) == n.Times(n.Times(n.Add(n.At(x), n.At(i)), Prod(n, js, x)), n.Eval(f, k, x))
    ensures g == MulRoot(n, MulRoots(n, f, k, js), k, i)
  {
    hide *;
    var p := MulRoot(n, MulRoots(n, f, k, js), k, i);
    forall x: nat ensures x < n.order && Drop(x, k) == 0 ==> n.Eval(g, k, x) == n.Eval(p, k, x) {
      if x < n.order {
        ProductValue(n, f, k, d, js, i, x);
      }
    }
    SameValues(n, g, p, k);
  }

  // From the values of a polynomial times a locator with the roots js and i, the derivative
  // gives the value of the polynomial at i times the other factors.
  lemma Interpolates<E(!new)>(n: Novel<E>, f: seq<E>, g: seq<E>, k: nat, d: nat, js: seq<nat>, i: nat)
    requires n.Ready() && |f| == |g| == Pow2(k) <= n.order && n.Below(f, d) && d + |js| < |f|
    requires i < n.order && Drop(i, k) == 0 && Numbers(js, n.order)
    requires forall x: nat :: x < n.order && Drop(x, k) == 0 ==>
      n.Eval(g, k, x) == n.Times(n.Times(n.Add(n.At(x), n.At(i)), Prod(n, js, x)), n.Eval(f, k, x))
    ensures n.Eval(Derived(n, g, k), k, i) == n.Times(Prod(n, js, i), n.Eval(f, k, i))
  {
    hide Novel.Eval, Novel.Slope, Novel.Ready, Novel.Times, Pow2, Novel.Add, MulRoots, Novel.Below, Drop, Derived, Prod;
    hide MulRoot;
    var h := MulRoots(n, f, k, js);
    EvalRoots(n, f, k, js, d, i);
    n.BelowMore(h, d + |js|, |h| - 1);
    ProductFound(n, f, g, k, d, js, i);
    EvalDerived(n, g, k, i);
    EvalRoot(n, h, k, i, i);
    n.AddLaws(n.At(i), n.At(i), n.At(i));
    n.TimesLaws(n.Eval(h, k, i), n.zero, n.zero);
    n.AddLaws(n.Slope(g, k, i), n.Slope(g, k, i), n.Slope(g, k, i));
  }
}
