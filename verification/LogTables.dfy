// initLUTs and initLUTs8: the logarithm and exponent tables of the Leopard codecs, at either
// width.
module LogTables {

  import opened BitXor
  import opened Words
  import opened BinaryField
  import opened BitMaps
  import opened CantorField

  // The discrete logarithm that the first loop leaves in expLUT.
  function Dlog(f: Field, a: nat): nat
    requires f.Valid() && a < f.Order()
  {
    f.Sizes();
    if a == 0 then f.Order() - 1 else f.g.log[a]
  }

  // The element of the Cantor basis that bit i selects.
  function Element(f: Field, i: nat): nat {
    if i < |f.basis.Words()| then Numbers(f.basis.Words(), f.basis.Width())[i] else 0
  }

  lemma NextState(f: Field, k: nat, state: nat)
    requires f.Valid() && state == f.g.Exp(k)
    ensures state < f.Order() && f.g.Exp(k + 1) < f.Order()
    ensures f.g.Exp(k + 1) == if 2 * state >= f.Order() then Xor(2 * state, f.g.poly) else 2 * state
  {
    hide Xor, Undoes, Pow2, Gf.Shift;
    f.ExpIsShift(k);
    f.ExpIsShift(k + 1);
    f.g.ShiftUnfold(1, k + 1);
  }

  lemma DlogFacts(f: Field, a: nat, k: nat)
    requires f.Valid() && a < f.Order() && k < f.Order() - 1
    ensures 0 < f.g.Exp(k) < f.Order() && Dlog(f, f.g.Exp(k)) == k
    ensures a != 0 ==> Dlog(f, a) < f.Order() - 1 && f.g.Exp(Dlog(f, a)) == a
  {
    hide Gf.Exp, Undoes, Pow2;
    f.Sizes();
  }

  lemma Start(f: Field)
    requires f.Valid()
    ensures f.g.Exp(0) == 1 && f.Order() >= 256 && f.basis.Apply(0) == 0 && f.inverse.Apply(0) == 0
  {
    hide Undoes, Pow2, BitMap.Apply;
    f.g.ExpZero();
    f.Bounds(0);
  }

  lemma BasisStep(f: Field, i: nat, j: nat)
    requires f.Valid() && i < f.g.width && j < Pow2(i)
    ensures j + Pow2(i) < f.Order()
    ensures f.basis.Apply(j + Pow2(i)) == Xor(f.basis.Apply(j), Element(f, i))
  {
    hide Pow2, Xor, Number, Mix, Undoes;
    f.Sizes();
    PowRises(i, f.g.width);
    PowStep(i + 1);
    if i + 1 < f.g.width {
      PowRises(i + 1, f.g.width);
    }
    XorPow2(j, i);
    XorCommutes(Pow2(i), j);
    f.basis.IsLinear(j, Pow2(i));
    MixOfBit(Numbers(f.basis.Words(), f.basis.Width()), 0, i);
  }

  lemma LogIsDlog(f: Field, a: nat)
    requires f.Valid() && a < f.Order()
    ensures f.basis.Apply(a) < f.Order() && f.Log(a) == Dlog(f, f.basis.Apply(a)) < f.Order()
  {
    hide Undoes, BitMap.Apply, Pow2;
    f.Bounds(a);
    f.Inverses(a);
    f.LogBound(a);
  }

  lemma LogInjective(f: Field, a: nat, b: nat)
    requires f.Valid() && a < f.Order() && b < f.Order() && f.Log(a) == f.Log(b)
    ensures a == b
  {
    hide *;
    LogIsDlog(f, a);
    LogIsDlog(f, b);
    LowerOne(f);
    DlogFacts(f, f.basis.Apply(a), 0);
    DlogFacts(f, f.basis.Apply(b), 0);
    DlogOfZero(f);
    f.SameForm(a, b);
  }

  lemma LowerOne(f: Field)
    requires f.Valid()
    ensures 0 < f.Order() - 1
  {
    hide Undoes;
    f.Sizes();
  }

  lemma DlogOfZero(f: Field)
    requires f.Valid() && 0 < f.Order()
    ensures Dlog(f, 0) == f.Order() - 1
  {
  }

  // Where the exponent table says logarithm k is found.
  lemma LogFound(f: Field, k: nat)
    requires f.Valid() && k < f.Order() - 1
    ensures f.Exp(k) < f.Order() && f.Log(f.Exp(k)) == k
  {
    hide *;
    f.ExpIsShift(k);
    LowerOne(f);
    DlogFacts(f, 0, k);
    LogIsDlog(f, f.Exp(k));
  }

  lemma LogOfZero(f: Field)
    requires f.Valid()
    ensures 0 < f.Order() && f.Log(0) == f.Order() - 1
    ensures f.Exp(f.Order() - 1) == f.Exp(0)
  {
    hide Undoes, BitMap.Apply, Gf.Exp, Pow2;
    f.Sizes();
    f.g.ExpPeriod(0);
  }

  method InitLUTs(f: Field) returns (logLUT: array<nat>, expLUT: array<nat>)
    requires f.Valid()
    ensures fresh(logLUT) && fresh(expLUT) && logLUT.Length == expLUT.Length == f.Order()
    ensures forall a: nat | a < f.Order() :: logLUT[a] == f.Log(a) && expLUT[a] == f.Exp(a)
  {
    hide *;
    var order := f.Order();
    Start(f);
    expLUT := new nat[order](_ => 0);
    RegisterLoop(f, expLUT);
    logLUT := new nat[order](_ => 0);
    BasisLoops(f, logLUT);
    // From the register's form to the logarithm.
    for i := 0 to order
      invariant forall a: nat | a < order :: expLUT[a] == Dlog(f, a)
      invariant forall a: nat | a < order :: logLUT[a] == if a < i then f.Log(a) else f.basis.Apply(a)
    {
      LogIsDlog(f, i);
      logLUT[i] := expLUT[logLUT[i]];
    }
    for i := 0 to order
      invariant forall a: nat | a < order :: logLUT[a] == f.Log(a)
      invariant forall a: nat | a < i :: f.Log(a) < order && expLUT[f.Log(a)] == a
    {
      LogIsDlog(f, i);
      forall a: nat | a < i ensures f.Log(a) != f.Log(i) {
        if f.Log(a) == f.Log(i) {
          LogInjective(f, a, i);
        }
      }
      expLUT[logLUT[i]] := i;
    }
    LogOfZero(f);
    forall k: nat | k < order - 1 ensures expLUT[k] == f.Exp(k) {
      LogFound(f, k);
    }
    expLUT[order - 1] := expLUT[0];
  }

  // The register meets every element but 0.
  method RegisterLoop(f: Field, expLUT: array<nat>)
    requires f.Valid() && expLUT.Length == f.Order()
    modifies expLUT
    ensures forall a: nat | a < f.Order() :: expLUT[a] == Dlog(f, a)
  {
    hide *;
    var order := f.Order();
    var state := 1;
    Start(f);
    for i := 0 to order - 1
      invariant state == f.g.Exp(i)
      invariant forall a: nat | 0 < a < order && Dlog(f, a) < i :: expLUT[a] == Dlog(f, a)
    {
      NextState(f, i, state);
      OnlyHere(f, i);
      expLUT[state] := i;
      state := state * 2;
      if state >= order {
        state := Xor(state, f.g.poly);
      }
    }
    forall a: nat | 0 < a < order ensures Dlog(f, a) < order - 1 {
      DlogFacts(f, a, 0);
    }
    DlogOfZero(f);
    expLUT[0] := order - 1;
  }

  lemma OnlyHere(f: Field, i: nat)
    requires f.Valid() && i < f.Order() - 1
    ensures 0 < f.g.Exp(i) < f.Order() && Dlog(f, f.g.Exp(i)) == i
    ensures forall a: nat | 0 < a < f.Order() && Dlog(f, a) == i :: a == f.g.Exp(i)
  {
    hide *;
    DlogFacts(f, 0, i);
    forall a: nat | 0 < a < f.Order() && Dlog(f, a) == i ensures a == f.g.Exp(i) {
      DlogFacts(f, a, i);
    }
  }

  // Conversion from the Cantor basis, one bit after the other.
  method BasisLoops(f: Field, logLUT: array<nat>)
    requires f.Valid() && logLUT.Length == f.Order()
    modifies logLUT
    ensures forall a: nat | a < f.Order() :: logLUT[a] == f.basis.Apply(a)
  {
    hide *;
    Start(f);
    logLUT[0] := 0;
    PowZero();
    OrderIsPower(f);
    for i := 0 to f.g.width
      invariant Pow2(i) <= f.Order() && forall a: nat | a < Pow2(i) :: logLUT[a] == f.basis.Apply(a)
    {
      var basis := Element(f, i);
      var width := Pow2(i);
      PowStep(i + 1);
      Room(f, i);
      for j := 0 to width
        invariant forall a: nat | a < width + j :: logLUT[a] == f.basis.Apply(a)
      {
        BasisStep(f, i, j);
        logLUT[j + width] := Xor(logLUT[j], basis);
      }
    }
  }

  lemma OrderIsPower(f: Field)
    requires f.Valid()
    ensures f.Order() == Pow2(f.g.width)
  {
  }

  lemma Room(f: Field, i: nat)
    requires f.Valid() && i < f.g.width
    ensures 2 * Pow2(i) <= f.Order()
  {
    hide Pow2, Undoes;
    OrderIsPower(f);
    PowStep(i + 1);
    if i + 1 < f.g.width {
      PowRises(i + 1, f.g.width);
    }
  }
}
