// Polynomials over GF(2^8), lowest coefficient first: a nonzero one has fewer roots than
// coefficients, and the product of linear factors has exactly the roots asked for.
module Polynomials {

  import opened Galois
  import opened LinearAlgebra
  import opened Pigeonhole

  function Eval(p: Row, a: Byte): Byte {
    if p == [] then 0 else GalAdd(p[0], GalMultiply(a, Eval(p[1..], a)))
  }

  // The quotient of p by X + a.
  function Quotient(p: Row, a: Byte): (q: Row)
    ensures |q| == if p == [] then 0 else |p| - 1
  {
    if |p| <= 1 then [] else [Eval(p[1..], a)] + Quotient(p[1..], a)
  }

  lemma {:induction false} EvalZeros(p: Row, a: Byte)
    requires p == Zeros(|p|)
    ensures Eval(p, a) == 0
  {
    hide GalAdd, GalMultiply;
    if p != [] {
      assert p[1..] == Zeros(|p| - 1);
      EvalZeros(p[1..], a);
      MulLaws(a, 0, 0);
      AddLaws(0, 0, 0);
    }
  }

  // Division with remainder at one evaluation point.
  lemma {:induction false} EvalQuotient(p: Row, a: Byte, b: Byte)
    ensures Eval(p, b) == GalAdd(Eval(p, a), GalMultiply(GalAdd(b, a), Eval(Quotient(p, a), b)))
  {
    hide GalAdd, GalMultiply;
    MulLaws(GalAdd(b, a), 0, 0);
    if p == [] {
      AddLaws(0, 0, 0);
    } else if |p| == 1 {
      assert p[1..] == [];
      MulLaws(a, 0, 0);
      MulLaws(b, 0, 0);
      AddLaws(p[0], 0, 0);
      AddLaws(GalAdd(p[0], 0), 0, 0);
    } else {
      var t := p[1..];
      var q := Quotient(t, a);
      EvalQuotient(t, a, b);
      assert Quotient(p, a) == [Eval(t, a)] + q;
      assert Quotient(p, a)[1..] == q;
      DivisionStep(p[0], a, b, Eval(t, a), Eval(q, b));
    }
  }

  lemma DivisionStep(c: Byte, a: Byte, b: Byte, e: Byte, q: Byte)
    ensures GalAdd(c, GalMultiply(b, GalAdd(e, GalMultiply(GalAdd(b, a), q))))
         == GalAdd(GalAdd(c, GalMultiply(a, e)), GalMultiply(GalAdd(b, a), GalAdd(e, GalMultiply(b, q))))
  {
    hide GalAdd, GalMultiply;
    var d := GalAdd(b, a);
    var bdq := GalMultiply(b, GalMultiply(d, q));
    Distributes(e, GalMultiply(d, q), b);
    Distributes(e, GalMultiply(b, q), d);
    Distributes(b, a, e);
    MulLaws(d, b, q);
    MulLaws(b, d, q);
    CancelTwice(c, GalMultiply(a, e), GalMultiply(b, e), bdq);
  }

  lemma CancelTwice(c: Byte, x: Byte, y: Byte, z: Byte)
    ensures GalAdd(c, GalAdd(y, z)) == GalAdd(GalAdd(c, x), GalAdd(GalAdd(y, x), z))
  {
    hide GalAdd;
    AddLaws(y, x, z);
    AddExchange(c, x, y, GalAdd(x, z));
    AddLaws(x, x, z);
    AddLaws(z, 0, 0);
    AddLaws(c, y, z);
  }

  lemma {:induction false} QuotientZero(p: Row, a: Byte)
    requires p != [] && Quotient(p, a) == Zeros(|p| - 1)
    ensures p[1..] == Zeros(|p| - 1)
  {
    hide GalAdd, GalMultiply;
    if |p| > 1 {
      var t := p[1..];
      var q := Quotient(p, a);
      assert q == [Eval(t, a)] + Quotient(t, a);
      assert q[0] == 0 && q[1..] == Quotient(t, a) == Zeros(|t| - 1);
      QuotientZero(t, a);
      EvalZeros(t[1..], a);
      MulLaws(a, 0, 0);
      AddLaws(t[0], 0, 0);
    }
  }

  // As many distinct roots as coefficients leave only the zero polynomial.
  lemma {:induction false} RootsForceZero(p: Row, roots: seq<Byte>)
    requires |p| <= |roots| && Distinct(roots)
    requires forall i | 0 <= i < |roots| :: Eval(p, roots[i]) == 0
    ensures p == Zeros(|p|)
    decreases |p|
  {
    hide GalAdd, GalMultiply;
    if p != [] {
      var a, rest := roots[0], roots[1..];
      var q := Quotient(p, a);
      forall i | 0 <= i < |rest| ensures Eval(q, rest[i]) == 0 {
        var b := rest[i];
        assert b == roots[i + 1] && Eval(p, a) == 0;
        EvalQuotient(p, a, b);
        AddLaws(GalMultiply(GalAdd(b, a), Eval(q, b)), 0, 0);
        MulLaws(GalAdd(b, a), Eval(q, b), 0);
        AddLaws(b, a, 0);
      }
      RootsForceZero(q, rest);
      QuotientZero(p, a);
      EvalZeros(p[1..], a);
      MulLaws(a, 0, 0);
      AddLaws(p[0], 0, 0);
    }
  }

  // ---------- A polynomial with given roots ----------

  // p times X + a
  function TimesRoot(p: Row, a: Byte): (r: Row)
    ensures |r| == |p| + 1
  {
    if p == [] then [0]
    else
      var t := TimesRoot(p[1..], a);
      [GalMultiply(a, p[0])] + [GalAdd(p[0], t[0])] + t[1..]
  }

  function WithRoots(roots: seq<Byte>): (p: Row)
    ensures |p| == |roots| + 1
  {
    if roots == [] then [1] else TimesRoot(WithRoots(roots[1..]), roots[0])
  }

  lemma {:induction false} EvalTimesRoot(p: Row, a: Byte, b: Byte)
    ensures Eval(TimesRoot(p, a), b) == GalMultiply(GalAdd(b, a), Eval(p, b))
  {
    hide GalAdd, GalMultiply;
    var r := TimesRoot(p, a);
    if p == [] {
      assert r == Zeros(1);
      EvalZeros(r, b);
      MulLaws(GalAdd(b, a), 0, 0);
    } else {
      var t := TimesRoot(p[1..], a);
      EvalTimesRoot(p[1..], a, b);
      var r' := [GalAdd(p[0], t[0])] + t[1..];
      assert r[1..] == r' && r'[1..] == t[1..];
      RootStep(a, b, p[0], t[0], Eval(t[1..], b), Eval(p[1..], b));
    }
  }

  // With t0 + b t = (b + a) e:  a c + b ((c + t0) + b t) = (b + a) (c + b e).
  lemma RootStep(a: Byte, b: Byte, c: Byte, t0: Byte, t: Byte, e: Byte)
    requires GalAdd(t0, GalMultiply(b, t)) == GalMultiply(GalAdd(b, a), e)
    ensures GalAdd(GalMultiply(a, c), GalMultiply(b, GalAdd(GalAdd(c, t0), GalMultiply(b, t))))
         == GalMultiply(GalAdd(b, a), GalAdd(c, GalMultiply(b, e)))
  {
    hide GalAdd, GalMultiply;
    var d := GalAdd(b, a);
    AddLaws(c, t0, GalMultiply(b, t));
    Distributes(c, GalMultiply(d, e), b);
    Distributes(c, GalMultiply(b, e), d);
    Distributes(b, a, c);
    MulLaws(d, b, e);
    MulLaws(b, d, e);
    AddLaws(GalMultiply(a, c), GalMultiply(b, c), GalMultiply(b, GalMultiply(d, e)));
    AddLaws(GalMultiply(b, c), GalMultiply(a, c), 0);
  }

  lemma {:induction false} WithRootsVanishes(roots: seq<Byte>, i: nat)
    requires i < |roots|
    ensures Eval(WithRoots(roots), roots[i]) == 0
  {
    hide GalAdd, GalMultiply, TimesRoot;
    var p := WithRoots(roots[1..]);
    EvalTimesRoot(p, roots[0], roots[i]);
    AddLaws(roots[i], roots[0], 0);
    MulLaws(GalAdd(roots[i], roots[0]), Eval(p, roots[i]), 0);
    MulLaws(Eval(p, roots[i]), 0, 0);
    if i > 0 {
      WithRootsVanishes(roots[1..], i - 1);
    }
  }

  lemma {:induction false} TimesRootMonic(p: Row, a: Byte)
    requires p != [] && p[|p| - 1] == 1
    ensures TimesRoot(p, a)[|p|] == 1
  {
    hide GalAdd, GalMultiply;
    if |p| == 1 {
      assert TimesRoot(p[1..], a) == [0];
      AddLaws(1, 0, 0);
    } else {
      TimesRootMonic(p[1..], a);
    }
  }

  lemma {:induction false} WithRootsMonic(roots: seq<Byte>)
    ensures WithRoots(roots)[|roots|] == 1
  {
    hide TimesRoot;
    if roots != [] {
      WithRootsMonic(roots[1..]);
      TimesRootMonic(WithRoots(roots[1..]), roots[0]);
    }
  }
}
