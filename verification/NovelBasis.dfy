// Polynomials in the basis of the Leopard transform, over any field in a Cantor basis. There the
// linearized polynomial number b takes x to x with its b lowest bits dropped, so that the value of
// a polynomial can be read off the even and the odd coefficients at x / 2.
module NovelBasis {

  import opened BitXor

  // ---------- Coefficients ----------

  function Even<E>(w: seq<E>): (r: seq<E>)
    ensures |r| == |w| / 2
  {
    seq(|w| / 2, i requires 0 <= i < |w| / 2 => w[2 * i])
  }

  function Odd<E>(w: seq<E>): (r: seq<E>)
    ensures |r| == |w| / 2
  {
    seq(|w| / 2, i requires 0 <= i < |w| / 2 => w[2 * i + 1])
  }

  function Merge<E>(u: seq<E>, v: seq<E>): (r: seq<E>)
    requires |u| == |v|
    ensures |r| == 2 * |u|
  {
    seq(2 * |u|, i requires 0 <= i < 2 * |u| && |u| == |v| => if i % 2 == 0 then u[i / 2] else v[i / 2])
  }

  lemma MergeParts<E>(u: seq<E>, v: seq<E>)
    requires |u| == |v|
    ensures Even(Merge(u, v)) == u && Odd(Merge(u, v)) == v
  {
  }

  lemma PartLengths<E>(w: seq<E>, k: nat)
    requires k > 0 && |w| == Pow2(k)
    ensures |w| == 2 * Pow2(k - 1) && |Even(w)| == |Odd(w)| == Pow2(k - 1)
  {
    PowStep(k);
  }

  lemma HalvesParts<E>(w: seq<E>, h: nat)
    requires |w| == 4 * h
    ensures Even(w)[..h] == Even(w[..2 * h]) && Even(w)[h..] == Even(w[2 * h..])
    ensures Odd(w)[..h] == Odd(w[..2 * h]) && Odd(w)[h..] == Odd(w[2 * h..])
  {
  }

  // x without its b lowest bits.
  function Drop(x: nat, b: nat): nat {
    if b == 0 then x else Drop(x / 2, b - 1)
  }

  lemma DropStep(x: nat, b: nat)
    ensures Drop(x, b) == if b == 0 then x else Drop(x / 2, b - 1)
  {
  }

  // A field: its addition and multiplication, and the element that each number below order
  // stands for.
  datatype Novel<!E(!new)> = Novel(order: nat, zero: E, one: E, add: (E, E) -> E, times: (E, E) -> E, at: nat -> E) {

    function Add(a: E, b: E): E {
      add(a, b)
    }

    function Times(a: E, b: E): E {
      times(a, b)
    }

    function At(x: nat): E {
      at(x)
    }

    ghost predicate Laws(a: E, b: E, c: E) {
      && Add(a, b) == Add(b, a) && Add(Add(a, b), c) == Add(a, Add(b, c))
      && Add(a, zero) == a && Add(a, a) == zero
      && Times(a, b) == Times(b, a) && Times(Times(a, b), c) == Times(a, Times(b, c))
      && Times(Add(a, b), c) == Add(Times(a, c), Times(b, c))
      && Times(a, one) == a && Times(a, zero) == zero
      && (Times(a, b) == zero ==> a == zero || b == zero)
    }

    // Numbers are added bit by bit, and squaring one and adding it drops its lowest bit and moves
    // the others down.
    ghost predicate PointLaws(x: nat, y: nat) {
      && Xor(x, y) < order && At(Xor(x, y)) == Add(At(x), At(y))
      && Times(At(x), At(x)) == Add(At(x), At(x / 2))
      && (At(x) == zero <==> x == 0)
    }

    ghost predicate Ready() {
      && order >= 2 && At(1) == one
      && (forall a: E, b: E, c: E :: Laws(a, b, c))
      && (forall x: nat, y: nat | x < order && y < order :: PointLaws(x, y))
    }

    lemma AddLaws(a: E, b: E, c: E)
      requires Ready()
      ensures Add(a, b) == Add(b, a) && Add(Add(a, b), c) == Add(a, Add(b, c))
      ensures Add(a, zero) == a && Add(zero, a) == a && Add(a, a) == zero
    {
      assert Laws(a, b, c) && Laws(zero, a, a);
    }

    lemma TimesLaws(a: E, b: E, c: E)
      requires Ready()
      ensures Times(a, b) == Times(b, a)
      ensures Times(Times(a, b), c) == Times(a, Times(b, c))
      ensures Times(a, one) == a && Times(one, a) == a && Times(a, zero) == zero && Times(zero, a) == zero
    {
      assert Laws(a, b, c) && Laws(one, a, a) && Laws(zero, a, a);
    }

    lemma Distributes(a: E, b: E, c: E)
      requires Ready()
      ensures Times(Add(a, b), c) == Add(Times(a, c), Times(b, c))
      ensures Times(c, Add(a, b)) == Add(Times(c, a), Times(c, b))
    {
      assert Laws(a, b, c) && Laws(c, Add(a, b), c) && Laws(c, a, c) && Laws(c, b, c);
    }

    lemma NoDivisors(a: E, b: E)
      requires Ready() && Times(a, b) == zero
      ensures a == zero || b == zero
    {
      assert Laws(a, b, a);
    }

    lemma Points(x: nat, y: nat)
      requires Ready() && x < order && y < order
      ensures Xor(x, y) < order && At(Xor(x, y)) == Add(At(x), At(y))
      ensures Times(At(x), At(x)) == Add(At(x), At(x / 2))
      ensures At(x) == zero <==> x == 0
    {
      assert PointLaws(x, y);
    }

    lemma PointOne()
      requires Ready()
      ensures 1 < order && At(1) == one && At(0) == zero
    {
      assert PointLaws(0, 0);
    }

    function Sum(u: seq<E>, v: seq<E>): (r: seq<E>)
      requires |u| == |v|
      ensures |r| == |u|
    {
      seq(|u|, i requires 0 <= i < |u| && |u| == |v| => Add(u[i], v[i]))
    }

    lemma PartsOfSum(u: seq<E>, v: seq<E>)
      requires |u| == |v|
      ensures Even(Sum(u, v)) == Sum(Even(u), Even(v)) && Odd(Sum(u, v)) == Sum(Odd(u), Odd(v))
    {
      hide Add;
    }

    lemma SumAt(u: seq<E>, v: seq<E>, i: nat)
      requires |u| == |v| && i < |u|
      ensures Sum(u, v)[i] == Add(u[i], v[i])
    {
    }

    lemma FourTerms(a: E, b: E, c: E, d: E)
      requires Ready()
      ensures Add(Add(a, b), Add(c, d)) == Add(Add(a, c), Add(b, d))
    {
      hide Add, Ready;
      AddLaws(a, b, Add(c, d));
      AddLaws(b, c, d);
      AddLaws(c, b, d);
      AddLaws(a, c, Add(b, d));
      AddLaws(b, Add(c, d), b);
    }

    // a + (b + c) = (b + c) + a, and so on.
    lemma AddSwap(a: E, b: E, c: E)
      requires Ready()
      ensures Add(a, Add(b, c)) == Add(b, Add(c, a))
    {
      hide Add;
      AddLaws(a, Add(b, c), a);
      AddLaws(b, c, a);
    }

    lemma LeftSide(o: E, h: E, e: E)
      requires Ready()
      ensures Add(Add(o, h), Add(e, o)) == Add(e, h)
    {
      hide Add;
      AddLaws(o, h, o);
      AddLaws(e, o, e);
      FourTerms(o, h, o, e);
      AddLaws(o, o, o);
      AddLaws(Add(h, e), e, e);
      AddLaws(h, e, h);
    }

    lemma RightSide(e: E, xo: E, xs: E, xt: E, h: E)
      requires Ready()
      ensures Add(Add(e, xo), Add(Add(xs, xo), Add(xt, h))) == Add(Add(e, h), Add(xs, xt))
    {
      hide Add;
      AddLaws(xs, xo, Add(xt, h));
      AddLaws(xo, xs, Add(xt, h));
      // (e + xo) + (xo + (xs + (xt + h)))
      var r := Add(xs, Add(xt, h));
      AddLaws(e, xo, Add(xo, r));
      AddLaws(xo, xo, r);
      AddLaws(r, r, r);
      AddLaws(xs, xt, h);
      AddLaws(Add(xs, xt), h, h);
      AddLaws(e, h, Add(xs, xt));
    }

    // ---------- Degrees ----------

    // The coefficients from d on are zero.
    ghost predicate Below(w: seq<E>, d: nat) {
      forall j | d <= j < |w| :: w[j] == zero
    }

    function Zeros(n: nat): (r: seq<E>)
      ensures |r| == n
    {
      seq(n, _ => zero)
    }

    // Multiplication by x: the square of x carries into the next bit.
    function MulX(w: seq<E>, k: nat): (r: seq<E>)
      requires |w| == Pow2(k)
      ensures |r| == |w|
      decreases k
    {
      if k == 0 then [zero]
      else
        PartLengths(w, k);
        Merge(MulX(Odd(w), k - 1), Sum(Even(w), Odd(w)))
    }

    lemma MulXStep(w: seq<E>, k: nat)
      requires k > 0 && |w| == Pow2(k)
      ensures |Even(w)| == |Odd(w)| == Pow2(k - 1)
      ensures Even(MulX(w, k)) == MulX(Odd(w), k - 1) && Odd(MulX(w, k)) == Sum(Even(w), Odd(w))
    {
      hide Even, Odd, Merge, Sum;
      PartLengths(w, k);
      MergeParts(MulX(Odd(w), k - 1), Sum(Even(w), Odd(w)));
    }

    lemma MulXNone(w: seq<E>)
      requires |w| == 1
      ensures |w| == Pow2(0) && MulX(w, 0) == [zero]
    {
    }

    lemma PartsBelow(w: seq<E>, d: nat)
      requires Below(w, d)
      ensures Below(Even(w), (d + 1) / 2) && Below(Odd(w), d / 2)
    {
    }

    lemma MergeBelow(w: seq<E>, d: nat)
      requires Below(Even(w), d / 2 + 1) && Below(Odd(w), (d + 1) / 2) && |w| % 2 == 0
      ensures Below(w, d + 1)
    {
      forall j | d + 1 <= j < |w| ensures w[j] == zero {
        if j % 2 == 0 {
          assert Even(w)[j / 2] == w[2 * (j / 2)];
        } else {
          assert Odd(w)[j / 2] == w[2 * (j / 2) + 1];
        }
      }
    }

    lemma SumBelow(u: seq<E>, v: seq<E>, d: nat)
      requires Ready() && |u| == |v| && Below(u, d) && Below(v, d)
      ensures Below(Sum(u, v), d)
    {
      hide Add;
      AddLaws(zero, zero, zero);
    }

    // The degree grows by one.
    lemma {:induction false} MulXBelow(w: seq<E>, k: nat, d: nat)
      requires Ready() && |w| == Pow2(k) && Below(w, d)
      ensures Below(MulX(w, k), d + 1)
      decreases k
    {
      hide Even, Odd, Sum, MulX, Below;
      if k == 0 {
        MulXNone(w);
        BelowAny([zero], d + 1);
      } else {
        PowStep(k);
        MulXStep(w, k);
        PartsBelow(w, d);
        MulXBelow(Odd(w), k - 1, d / 2);
        BelowMore(Odd(w), d / 2, (d + 1) / 2);
        SumBelow(Even(w), Odd(w), (d + 1) / 2);
        MergeBelow(MulX(w, k), d);
      }
    }

    lemma BelowAny(w: seq<E>, d: nat)
      requires |w| <= d
      ensures Below(w, d)
    {
    }

    lemma BelowMore(w: seq<E>, d: nat, e: nat)
      requires Below(w, d) && d <= e
      ensures Below(w, e)
    {
    }

    // The last coefficient is the last one of the odd part.
    lemma LastOdd(w: seq<E>, k: nat)
      requires k > 0 && |w| == Pow2(k) && Below(w, |w| - 1)
      ensures |Odd(w)| == Pow2(k - 1) && Below(Odd(w), |Odd(w)| - 1)
    {
      PartLengths(w, k);
    }

    function Scaled(c: E, u: seq<E>): (r: seq<E>)
      ensures |r| == |u|
    {
      seq(|u|, i requires 0 <= i < |u| => Times(c, u[i]))
    }

    lemma PartsOfScaled(c: E, u: seq<E>)
      ensures Even(Scaled(c, u)) == Scaled(c, Even(u)) && Odd(Scaled(c, u)) == Scaled(c, Odd(u))
    {
      hide Times;
    }

    // ---------- Values ----------

    function Eval(w: seq<E>, k: nat, x: nat): E
      requires |w| == Pow2(k)
      decreases k
    {
      if k == 0 then w[0]
      else
        PartLengths(w, k);
        Add(Eval(Even(w), k - 1, x / 2), Times(At(x), Eval(Odd(w), k - 1, x / 2)))
    }

    lemma EvalZero(w: seq<E>, x: nat)
      requires |w| == 1
      ensures |w| == Pow2(0) && Eval(w, 0, x) == w[0]
    {
    }

    lemma EvalStep(w: seq<E>, k: nat, x: nat)
      requires k > 0 && |w| == Pow2(k)
      ensures |Even(w)| == |Odd(w)| == Pow2(k - 1)
      ensures Eval(w, k, x) == Add(Eval(Even(w), k - 1, x / 2), Times(At(x), Eval(Odd(w), k - 1, x / 2)))
    {
      hide Even, Odd, Times, Add;
      PartLengths(w, k);
    }

    lemma {:induction false} EvalSum(u: seq<E>, v: seq<E>, k: nat, x: nat)
      requires Ready()
      requires |u| == |v| == Pow2(k)
      ensures Eval(Sum(u, v), k, x) == Add(Eval(u, k, x), Eval(v, k, x))
      decreases k
    {
      hide Eval, Sum, Even, Odd, Times, Add, Pow2, Ready;
      if k == 0 {
        PowZero();
        EvalZero(u, x);
        EvalZero(v, x);
        EvalZero(Sum(u, v), x);
        SumAt(u, v, 0);
      } else {
        EvalStep(u, k, x);
        EvalStep(v, k, x);
        EvalStep(Sum(u, v), k, x);
        PartsOfSum(u, v);
        EvalSum(Even(u), Even(v), k - 1, x / 2);
        EvalSum(Odd(u), Odd(v), k - 1, x / 2);
        var e, o, e', o' := Eval(Even(u), k - 1, x / 2), Eval(Odd(u), k - 1, x / 2), Eval(Even(v), k - 1, x / 2),
                            Eval(Odd(v), k - 1, x / 2);
        Distributes(o, o', At(x));
        FourTerms(e, Times(At(x), o), e', Times(At(x), o'));
      }
    }

    lemma ScaledAt(c: E, u: seq<E>, i: nat)
      requires i < |u|
      ensures Scaled(c, u)[i] == Times(c, u[i])
    {
    }

    lemma {:induction false} EvalScaled(c: E, u: seq<E>, k: nat, x: nat)
      requires Ready()
      requires |u| == Pow2(k)
      ensures Eval(Scaled(c, u), k, x) == Times(c, Eval(u, k, x))
      decreases k
    {
      hide Eval, Scaled, Even, Odd, Times, Add, Pow2, Ready;
      if k == 0 {
        PowZero();
        EvalZero(u, x);
        EvalZero(Scaled(c, u), x);
        ScaledAt(c, u, 0);
      } else {
        EvalStep(u, k, x);
        EvalStep(Scaled(c, u), k, x);
        PartsOfScaled(c, u);
        EvalScaled(c, Even(u), k - 1, x / 2);
        EvalScaled(c, Odd(u), k - 1, x / 2);
        var e, o := Eval(Even(u), k - 1, x / 2), Eval(Odd(u), k - 1, x / 2);
        TimesSwap(At(x), c, o);
        Distributes(e, Times(At(x), o), c);
      }
    }

    lemma TimesSwap(a: E, b: E, c: E)
      requires Ready()
      ensures Times(a, Times(b, c)) == Times(b, Times(a, c))
    {
      hide Times;
      TimesLaws(a, b, c);
      TimesLaws(b, a, c);
    }

    // ---------- The two halves ----------

    // The four parts by bits and by halves.
    lemma Regroup(x: E, d: E, el: E, eh: E, ol: E, oh: E)
      requires Ready()
      ensures Add(Add(el, Times(d, eh)), Times(x, Add(ol, Times(d, oh))))
           == Add(Add(el, Times(x, ol)), Times(d, Add(eh, Times(x, oh))))
    {
      hide *;
      Distributes(ol, Times(d, oh), x);
      TimesSwap(x, d, oh);
      FourTerms(el, Times(d, eh), Times(x, ol), Times(d, Times(x, oh)));
      Distributes(eh, Times(x, oh), d);
    }

    lemma EvalPair(w: seq<E>, x: nat)
      requires |w| == 2
      ensures 2 == Pow2(1) && 1 == Pow2(0)
      ensures Eval(w, 1, x) == Add(Eval(w[..1], 0, x), Times(At(Drop(x, 0)), Eval(w[1..], 0, x)))
    {
      hide Times, Add;
    }

    lemma {:induction false} EvalHalves(w: seq<E>, k: nat, x: nat)
      requires Ready() && k > 0 && |w| == Pow2(k)
      ensures |w| == 2 * Pow2(k - 1)
      ensures Eval(w, k, x) == Add(Eval(w[..Pow2(k - 1)], k - 1, x),
                                      Times(At(Drop(x, k - 1)), Eval(w[Pow2(k - 1)..], k - 1, x)))
      decreases k
    {
      hide *;
      PowStep(k);
      if k == 1 {
        PowZero();
        EvalPair(w, x);
      } else {
        var h := Pow2(k - 1);
        PowStep(k - 1);
        EvalStep(w, k, x);
        DropStep(x, k - 1);
        HalvesParts(w, Pow2(k - 2));
        EvalHalves(Even(w), k - 1, x / 2);
        EvalHalves(Odd(w), k - 1, x / 2);
        EvalStep(w[..h], k - 1, x);
        EvalStep(w[h..], k - 1, x);
        Regroup(At(x), At(Drop(x, k - 1)), Eval(Even(w[..h]), k - 2, x / 2), Eval(Even(w[h..]), k - 2, x / 2),
                Eval(Odd(w[..h]), k - 2, x / 2), Eval(Odd(w[h..]), k - 2, x / 2));
      }
    }

    // ---------- Multiplication by x ----------

    // x times a polynomial whose degree leaves room.
    lemma {:induction false} EvalMulX(w: seq<E>, k: nat, x: nat)
      requires x < order && Ready() && |w| == Pow2(k) && Below(w, |w| - 1)
      ensures Eval(MulX(w, k), k, x) == Times(At(x), Eval(w, k, x))
      decreases k
    {
      hide *;
      if k == 0 {
        PowZero();
        MulXNone(w);
        EvalZero(w, x);
        EvalZero([zero], x);
        LastIsZero(w);
        TimesLaws(At(x), zero, zero);
      } else {
        PowStep(k);
        MulXStep(w, k);
        LastOdd(w, k);
        EvalStep(w, k, x);
        EvalStep(MulX(w, k), k, x);
        EvalMulX(Odd(w), k - 1, x / 2);
        EvalSum(Even(w), Odd(w), k - 1, x / 2);
        Carry(x, Eval(Even(w), k - 1, x / 2), Eval(Odd(w), k - 1, x / 2));
      }
    }

    lemma LastIsZero(w: seq<E>)
      requires |w| == 1 && Below(w, 0)
      ensures w[0] == zero
    {
    }

    lemma Carry(x: nat, e: E, o: E)
      requires x < order && Ready()
      ensures Add(Times(At(x / 2), o), Times(At(x), Add(e, o))) == Times(At(x), Add(e, Times(At(x), o)))
    {
      hide *;
      Distributes(e, o, At(x));
      Distributes(e, Times(At(x), o), At(x));
      SquareTimes(x, o);
      AddSwap(Times(At(x / 2), o), Times(At(x), e), Times(At(x), o));
    }

    // x * (x * o) is x * o and what is carried.
    lemma SquareTimes(x: nat, o: E)
      requires x < order && Ready()
      ensures Times(At(x), Times(At(x), o)) == Add(Times(At(x), o), Times(At(x / 2), o))
    {
      hide *;
      TimesLaws(At(x), At(x), o);
      Points(x, x);
      Distributes(At(x), At(x / 2), o);
    }

    // ---------- The formal derivative ----------

    // The derivative of x is 1, and so is that of x / 2 and of all the others.
    function Slope(w: seq<E>, k: nat, x: nat): E
      requires |w| == Pow2(k)
      decreases k
    {
      if k == 0 then zero
      else
        PartLengths(w, k);
        Add(Add(Slope(Even(w), k - 1, x / 2), Eval(Odd(w), k - 1, x / 2)),
               Times(At(x), Slope(Odd(w), k - 1, x / 2)))
    }

    lemma SlopeZero(w: seq<E>, x: nat)
      requires |w| == 1
      ensures |w| == Pow2(0) && Slope(w, 0, x) == zero
    {
    }

    lemma SlopeStep(w: seq<E>, k: nat, x: nat)
      requires k > 0 && |w| == Pow2(k)
      ensures |Even(w)| == |Odd(w)| == Pow2(k - 1)
      ensures Slope(w, k, x)
           == Add(Add(Slope(Even(w), k - 1, x / 2), Eval(Odd(w), k - 1, x / 2)),
                     Times(At(x), Slope(Odd(w), k - 1, x / 2)))
    {
      hide Even, Odd, Times, Add, Eval;
      PartLengths(w, k);
    }

    lemma {:induction false} SlopeSum(u: seq<E>, v: seq<E>, k: nat, x: nat)
      requires Ready() && |u| == |v| == Pow2(k)
      ensures Slope(Sum(u, v), k, x) == Add(Slope(u, k, x), Slope(v, k, x))
      decreases k
    {
      hide *;
      if k == 0 {
        PowZero();
        SlopeZero(u, x);
        SlopeZero(v, x);
        SlopeZero(Sum(u, v), x);
        AddLaws(zero, zero, zero);
      } else {
        SlopeStep(u, k, x);
        SlopeStep(v, k, x);
        SlopeStep(Sum(u, v), k, x);
        PartsOfSum(u, v);
        SlopeSum(Even(u), Even(v), k - 1, x / 2);
        SlopeSum(Odd(u), Odd(v), k - 1, x / 2);
        EvalSum(Odd(u), Odd(v), k - 1, x / 2);
        var y := x / 2;
        var a, b, c := Slope(Even(u), k - 1, y), Eval(Odd(u), k - 1, y), Slope(Odd(u), k - 1, y);
        var a', b', c' := Slope(Even(v), k - 1, y), Eval(Odd(v), k - 1, y), Slope(Odd(v), k - 1, y);
        Distributes(c, c', At(x));
        FourTerms(a, a', b, b');
        FourTerms(Add(a, b), Times(At(x), c), Add(a', b'), Times(At(x), c'));
      }
    }

    lemma {:induction false} SlopeScaled(c: E, u: seq<E>, k: nat, x: nat)
      requires Ready() && |u| == Pow2(k)
      ensures Slope(Scaled(c, u), k, x) == Times(c, Slope(u, k, x))
      decreases k
    {
      hide *;
      if k == 0 {
        PowZero();
        SlopeZero(u, x);
        SlopeZero(Scaled(c, u), x);
        TimesLaws(c, zero, zero);
      } else {
        SlopeStep(u, k, x);
        SlopeStep(Scaled(c, u), k, x);
        PartsOfScaled(c, u);
        SlopeScaled(c, Even(u), k - 1, x / 2);
        SlopeScaled(c, Odd(u), k - 1, x / 2);
        EvalScaled(c, Odd(u), k - 1, x / 2);
        var y := x / 2;
        var a, b, d := Slope(Even(u), k - 1, y), Eval(Odd(u), k - 1, y), Slope(Odd(u), k - 1, y);
        TimesSwap(At(x), c, d);
        Distributes(a, b, c);
        Distributes(Add(a, b), Times(At(x), d), c);
      }
    }

    // The product rule for x.
    lemma {:induction false} SlopeMulX(w: seq<E>, k: nat, x: nat)
      requires x < order && Ready() && |w| == Pow2(k) && Below(w, |w| - 1)
      ensures Slope(MulX(w, k), k, x) == Add(Eval(w, k, x), Times(At(x), Slope(w, k, x)))
      decreases k
    {
      hide *;
      if k == 0 {
        PowZero();
        MulXNone(w);
        EvalZero(w, x);
        SlopeZero(w, x);
        SlopeZero([zero], x);
        LastIsZero(w);
        TimesLaws(At(x), zero, zero);
        AddLaws(zero, zero, zero);
      } else {
        PowStep(k);
        MulXStep(w, k);
        LastOdd(w, k);
        EvalStep(w, k, x);
        SlopeStep(w, k, x);
        SlopeStep(MulX(w, k), k, x);
        var y := x / 2;
        SlopeMulX(Odd(w), k - 1, y);
        EvalSum(Even(w), Odd(w), k - 1, y);
        SlopeSum(Even(w), Odd(w), k - 1, y);
        ProductRule(x, Eval(Even(w), k - 1, y), Eval(Odd(w), k - 1, y), Slope(Even(w), k - 1, y),
                    Slope(Odd(w), k - 1, y));
      }
    }

    lemma ProductRule(x: nat, e: E, o: E, s: E, t: E)
      requires x < order && Ready()
      ensures Add(Add(Add(o, Times(At(x / 2), t)), Add(e, o)), Times(At(x), Add(s, t)))
           == Add(Add(e, Times(At(x), o)), Times(At(x), Add(Add(s, o), Times(At(x), t))))
    {
      hide *;
      var xs, xt, ht, xo := Times(At(x), s), Times(At(x), t), Times(At(x / 2), t), Times(At(x), o);
      Distributes(s, t, At(x));
      Distributes(Add(s, o), Times(At(x), t), At(x));
      Distributes(s, o, At(x));
      SquareTimes(x, t);
      // (o + ht + e + o) + (xs + xt) = (e + xo) + ((xs + xo) + (xt + ht))
      LeftSide(o, ht, e);
      AddLaws(Add(e, ht), xs, xt);
      RightSide(e, xo, xs, xt, ht);
    }
  }
}
