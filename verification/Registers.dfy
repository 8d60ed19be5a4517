// The shift registers of the two field widths: both run through every nonzero element.
module Registers {

  import opened BitXor
  import opened BinaryField
  import opened Periods
  import opened Words
  import opened BitMaps

  function StepWord(w: bv20, poly: bv20, half: bv20): bv20 {
    if Exceeds(w, half) then Plus(Push(w, false), poly) else Push(w, false)
  }

  lemma TimesXUnfold(g: Gf, a: nat)
    requires g.HasShape()
    ensures g.width > 0 && g.Order() == Pow2(g.width)
    ensures a >= Pow2(g.width - 1) ==> g.TimesX(a) == Xor(2 * a, g.poly)
    ensures a < Pow2(g.width - 1) ==> g.TimesX(a) == 2 * a
  {
  }

  lemma StepIsTimesX(g: Gf, a: nat)
    requires g.HasShape() && g.width <= 16 && a < g.Order()
    ensures Word(g.TimesX(a)) == StepWord(Word(a), Word(g.poly), Mask(g.width - 1))
  {
    hide Word, Xor, Mask, Gf.TimesX, Pow2, Plus, Push, Exceeds, Gf.HasShape, Gf.Order;
    TimesXUnfold(g, a);
    WordDouble(a);
    if a >= Pow2(g.width - 1) {
      WordXor(2 * a, g.poly);
      WordAbove(a, g.width - 1, g.width);
    } else {
      WordBelow(a, g.width - 1);
    }
  }

  // ---------- Squaring ----------

  // The map square commutes with the register as squaring does.
  ghost predicate Doubles(g: Gf, square: BitMap) {
    && g.HasShape() && square.Valid() && g.width == square.Width()
    && square.Apply(1) == 1
    && forall i | 0 <= i < g.width :: square.Apply(g.TimesX(Pow2(i))) == g.TimesX(g.TimesX(square.Apply(Pow2(i))))
  }

  lemma SquareThenStep(g: Gf, square: BitMap, x: nat, y: nat)
    requires g.HasShape() && square.Valid() && g.width == square.Width() && x < g.Order() && y < g.Order()
    ensures square.Apply(g.TimesX(Xor(x, y))) == Xor(square.Apply(g.TimesX(x)), square.Apply(g.TimesX(y)))
  {
    hide *;
    g.TimesXLinear(x, y);
    square.IsLinear(g.TimesX(x), g.TimesX(y));
  }

  lemma StepsAfterSquare(g: Gf, square: BitMap, x: nat, y: nat)
    requires g.HasShape() && square.Valid() && g.width == square.Width()
    ensures g.TimesX(g.TimesX(square.Apply(Xor(x, y))))
         == Xor(g.TimesX(g.TimesX(square.Apply(x))), g.TimesX(g.TimesX(square.Apply(y))))
  {
    hide *;
    var u, v := square.Apply(x), square.Apply(y);
    OrderIs(g);
    square.Bound(x);
    square.Bound(y);
    square.IsLinear(x, y);
    g.TimesXLinear(u, v);
    g.TimesXBound(u);
    g.TimesXBound(v);
    g.TimesXLinear(g.TimesX(u), g.TimesX(v));
  }

  lemma OrderIs(g: Gf)
    ensures g.Order() == Pow2(g.width)
  {
  }

  ghost function StepSquare(g: Gf, square: BitMap): nat -> nat {
    (x: nat) => square.Apply(g.TimesX(x))
  }

  ghost function SquareStepStep(g: Gf, square: BitMap): nat -> nat {
    (x: nat) => g.TimesX(g.TimesX(square.Apply(x)))
  }

  lemma LinearOnPair(g: Gf, square: BitMap, x: nat, y: nat)
    requires g.HasShape() && square.Valid() && g.width == square.Width() && x < Pow2(g.width) && y < Pow2(g.width)
    ensures StepSquare(g, square)(Xor(x, y)) == Xor(StepSquare(g, square)(x), StepSquare(g, square)(y))
    ensures SquareStepStep(g, square)(Xor(x, y)) == Xor(SquareStepStep(g, square)(x), SquareStepStep(g, square)(y))
  {
    hide Gf.TimesX, BitMap.Apply, BitMap.Valid, Pow2, Xor, Gf.HasShape, BitMap.Width, Gf.Order;
    OrderIs(g);
    SquareThenStep(g, square, x, y);
    StepsAfterSquare(g, square, x, y);
  }

  lemma BothLinear(g: Gf, square: BitMap)
    requires g.HasShape() && square.Valid() && g.width == square.Width()
    ensures Linear(StepSquare(g, square), g.width) && Linear(SquareStepStep(g, square), g.width)
  {
    hide Gf.TimesX, BitMap.Apply, BitMap.Valid, Pow2, Xor, Gf.HasShape, BitMap.Width, StepSquare, SquareStepStep;
    forall x: nat, y: nat | x < Pow2(g.width) && y < Pow2(g.width)
      ensures StepSquare(g, square)(Xor(x, y)) == Xor(StepSquare(g, square)(x), StepSquare(g, square)(y))
      ensures SquareStepStep(g, square)(Xor(x, y)) == Xor(SquareStepStep(g, square)(x), SquareStepStep(g, square)(y))
    {
      LinearOnPair(g, square, x, y);
    }
  }

  lemma SquareSteps(g: Gf, square: BitMap, a: nat)
    requires Doubles(g, square) && a < g.Order()
    ensures square.Apply(a) < g.Order() && square.Apply(g.TimesX(a)) == g.TimesX(g.TimesX(square.Apply(a)))
  {
    hide Gf.TimesX, BitMap.Apply, BitMap.Valid, Pow2, Xor, Gf.HasShape, BitMap.Width, Linear;
    OrderIs(g);
    BothLinear(g, square);
    square.Bound(a);
    Extends(StepSquare(g, square), SquareStepStep(g, square), g.width, g.width, a);
  }

  lemma {:induction false} SquareExp(g: Gf, square: BitMap, n: nat)
    requires Doubles(g, square)
    ensures square.Apply(g.Exp(n)) == g.Exp(2 * n)
  {
    hide Gf.TimesX, BitMap.Apply, Gf.Shift, Gf.Order;
    if n == 0 {
      g.ExpZero();
    } else {
      SquareExp(g, square, n - 1);
      OneBelow(g);
      g.ShiftBound(1, n - 1);
      SquareSteps(g, square, g.Exp(n - 1));
      g.ShiftUnfold(1, n);
      g.ShiftUnfold(1, 2 * n);
      g.ShiftUnfold(1, 2 * n - 1);
    }
  }

  lemma OneBelow(g: Gf)
    requires g.HasShape()
    ensures 1 < g.Order()
  {
  }

  // ---------- The registers ----------

  // generatingPolynomial of galois.go and polynomial8 of leopard8.go, with the leading bit.
  function Register8(): Gf {
    Gf(8, 0x11D, [])
  }

  // polynomial of leopard.go
  function Register16(): Gf {
    Gf(16, 0x1002D, [])
  }

  // The squares of the single bits, and the square of a word.
  const SQUARE_8: BitMap := Narrow(Eight(0x01, 0x04, 0x10, 0x40, 0x1D, 0x74, 0xCD, 0x13))
  const SQUARE_16: BitMap := Wide(Eight(0x0001, 0x0004, 0x0010, 0x0040, 0x0100, 0x0400, 0x1000, 0x4000),
                                  Eight(0x002D, 0x00B4, 0x02D0, 0x0B40, 0x2D00, 0xB400, 0xD05A, 0x411F))

  function SquareWord8(w: bv20): bv20 {
    Pick(w, 0x01, 0x04, 0x10, 0x40, 0x1D, 0x74, 0xCD, 0x13)
  }

  function SquareWord16(w: bv20): bv20 {
    Plus(Pick(w, 0x0001, 0x0004, 0x0010, 0x0040, 0x0100, 0x0400, 0x1000, 0x4000),
         Pick(w >> 8, 0x002D, 0x00B4, 0x02D0, 0x0B40, 0x2D00, 0xB400, 0xD05A, 0x411F))
  }

  lemma SquareWords(w: bv20)
    ensures SQUARE_8.ApplyWord(w) == SquareWord8(w) && SQUARE_16.ApplyWord(w) == SquareWord16(w)
  {
    hide Pick, Plus;
  }

  // From the power k to the power 2 * k or 2 * k + 1.
  function Next(wide: bool, w: bv20, odd: bool): bv20 {
    if wide then (if odd then StepWord(SquareWord16(w), 0x1002D, 0x7FFF) else SquareWord16(w))
    else (if odd then StepWord(SquareWord8(w), 0x11D, 0x7F) else SquareWord8(w))
  }

  function RegisterOf(wide: bool): Gf {
    if wide then Register16() else Register8()
  }

  function SquareOf(wide: bool): BitMap {
    if wide then SQUARE_16 else SQUARE_8
  }

  lemma NextPower(wide: bool, k: nat, odd: bool)
    requires Doubles(RegisterOf(wide), SquareOf(wide))
    ensures Word(RegisterOf(wide).Exp(if odd then 2 * k + 1 else 2 * k))
         == Next(wide, Word(RegisterOf(wide).Exp(k)), odd)
  {
    hide Gf.TimesX, BitMap.Apply, Gf.Shift, BitMap.ApplyWord, StepWord, Word, Mask, SquareWord8, SquareWord16;
    var g, square := RegisterOf(wide), SquareOf(wide);
    OneBelow(g);
    g.ShiftBound(1, k);
    g.ShiftBound(1, 2 * k);
    SquareExp(g, square, k);
    square.IsWord(g.Exp(k));
    SquareWords(Word(g.Exp(k)));
    StepIsTimesX(g, g.Exp(2 * k));
    g.ShiftUnfold(1, 2 * k + 1);
    Polynomials();
    MaskValues();
  }

  lemma Climb(wide: bool, k: nat, w: bv20, odd: bool, next: bv20)
    requires Doubles(RegisterOf(wide), SquareOf(wide)) && Word(RegisterOf(wide).Exp(k)) == w
    requires Next(wide, w, odd) == next
    ensures Word(RegisterOf(wide).Exp(if odd then 2 * k + 1 else 2 * k)) == next
  {
    hide *;
    NextPower(wide, k, odd);
  }

  lemma Polynomials()
    ensures Word(0x11D) == 0x11D && Word(0x1002D) == 0x1002D
  {
    hide Word;
    WordZero();
    WordUnfold(1); WordUnfold(2); WordUnfold(4); WordUnfold(8); WordUnfold(17); WordUnfold(35);
    WordUnfold(71); WordUnfold(142); WordUnfold(285);
    WordUnfold(16); WordUnfold(32); WordUnfold(64); WordUnfold(128); WordUnfold(256); WordUnfold(512);
    WordUnfold(1024); WordUnfold(2049); WordUnfold(4098); WordUnfold(8197); WordUnfold(16395); WordUnfold(32790);
    WordUnfold(65581);
  }

  // v is the square of the bit after the one whose square is w.
  predicate Follows(poly: bv20, half: bv20, v: bv20, w: bv20) {
    v == StepWord(StepWord(w, poly, half), poly, half)
  }

  lemma TwoSteps(g: Gf, a: nat)
    requires g.HasShape() && g.width <= 16 && a < g.Order()
    ensures g.TimesX(g.TimesX(a)) < g.Order()
    ensures Follows(Word(g.poly), Mask(g.width - 1), Word(g.TimesX(g.TimesX(a))), Word(a))
  {
    hide Gf.TimesX, StepWord, Word, Mask, Gf.HasShape, Gf.Order;
    OneBelow(g);
    g.TimesXBound(a);
    g.TimesXBound(g.TimesX(a));
    StepIsTimesX(g, a);
    StepIsTimesX(g, g.TimesX(a));
  }

  lemma FollowsUnique(poly: bv20, half: bv20, u: bv20, v: bv20, w: bv20)
    requires Follows(poly, half, u, w) && Follows(poly, half, v, w)
    ensures u == v
  {
    hide StepWord;
  }

  lemma BitsDouble(g: Gf, square: BitMap, i: nat)
    requires g.HasShape() && square.Valid() && g.width == square.Width() && i < g.width
    requires square.ApplyWord(1) == 1
    requires i < g.width - 1 ==> Follows(Word(g.poly), Mask(g.width - 1), square.Words()[i + 1], square.Words()[i])
    requires i == g.width - 1 ==>
      Follows(Word(g.poly), Mask(g.width - 1), square.ApplyWord(Word(g.TimesX(Pow2(i)))), square.Words()[i])
    ensures square.Apply(g.TimesX(Pow2(i))) == g.TimesX(g.TimesX(square.Apply(Pow2(i))))
  {
    hide Gf.TimesX, BitMap.Apply, BitMap.ApplyWord, Follows, Word, Mask, Pow2, Gf.HasShape, Narrower, BitMap.Words;
    var a, next := Pow2(i), g.TimesX(Pow2(i));
    OrderIs(g);
    PowRises(i, g.width);
    ImageOfBit(square, i);
    TwoSteps(g, square.Apply(a));
    g.TimesXBound(a);
    square.Bound(next);
    if i < g.width - 1 {
      TimesXUnfold(g, a);
      PowRises(i, g.width - 1);
      PowStep(i + 1);
      ImageOfBit(square, i + 1);
    } else {
      square.IsWord(next);
    }
    FollowsUnique(Word(g.poly), Mask(g.width - 1), Word(square.Apply(next)),
                  Word(g.TimesX(g.TimesX(square.Apply(a)))), square.Words()[i]);
    SameWord(square.Apply(next), g.TimesX(g.TimesX(square.Apply(a))), g.width);
  }

  lemma SquaresFollow8()
    ensures Follows(0x11D, 0x7F, 0x04, 0x01) && Follows(0x11D, 0x7F, 0x10, 0x04) && Follows(0x11D, 0x7F, 0x40, 0x10)
    ensures Follows(0x11D, 0x7F, 0x1D, 0x40) && Follows(0x11D, 0x7F, 0x74, 0x1D) && Follows(0x11D, 0x7F, 0xCD, 0x74)
    ensures Follows(0x11D, 0x7F, 0x13, 0xCD)
    ensures StepWord(0x80, 0x11D, 0x7F) == 0x1D && Follows(0x11D, 0x7F, SquareWord8(0x1D), 0x13)
  {
  }

  lemma SquaresFollow16()
    ensures Follows(0x1002D, 0x7FFF, 0x0004, 0x0001) && Follows(0x1002D, 0x7FFF, 0x0010, 0x0004)
    ensures Follows(0x1002D, 0x7FFF, 0x0040, 0x0010) && Follows(0x1002D, 0x7FFF, 0x0100, 0x0040)
    ensures Follows(0x1002D, 0x7FFF, 0x0400, 0x0100) && Follows(0x1002D, 0x7FFF, 0x1000, 0x0400)
    ensures Follows(0x1002D, 0x7FFF, 0x4000, 0x1000) && Follows(0x1002D, 0x7FFF, 0x002D, 0x4000)
    ensures Follows(0x1002D, 0x7FFF, 0x00B4, 0x002D) && Follows(0x1002D, 0x7FFF, 0x02D0, 0x00B4)
    ensures Follows(0x1002D, 0x7FFF, 0x0B40, 0x02D0) && Follows(0x1002D, 0x7FFF, 0x2D00, 0x0B40)
    ensures Follows(0x1002D, 0x7FFF, 0xB400, 0x2D00) && Follows(0x1002D, 0x7FFF, 0xD05A, 0xB400)
    ensures Follows(0x1002D, 0x7FFF, 0x411F, 0xD05A)
    ensures StepWord(0x8000, 0x1002D, 0x7FFF) == 0x2D && Follows(0x1002D, 0x7FFF, SquareWord16(0x2D), 0x411F)
  {
  }

  lemma Shape8()
    ensures SQUARE_8.Valid() && SQUARE_8.Width() == 8 && Register8().HasShape() && Register8().Order() == 256
  {
    assert Pow2(8) == 256;
    MaskValues();
    hide Mask;
  }

  lemma Valid16()
    ensures SQUARE_16.Valid() && SQUARE_16.Width() == 16
  {
    MaskValues();
    hide Mask;
  }

  lemma Shape16()
    ensures Register16().HasShape() && Register16().Order() == 65536
  {
    assert Pow2(8) == 256;
    assert Pow2(16) == 256 * Pow2(8);
  }

  // 1 is its own square.
  lemma OneIsSquare(square: BitMap)
    requires square.Valid() && square.ApplyWord(1) == 1
    ensures square.Apply(1) == 1
  {
    hide Word, Pow2, BitMap.Apply, BitMap.ApplyWord, BitMap.Words, Narrower;
    Bits();
    PowZero();
    PowRises(0, square.Width());
    square.IsWord(1);
    square.Bound(1);
    SameWord(square.Apply(1), 1, square.Width());
  }

  lemma OneWord()
    ensures SquareWord8(1) == 1 && SquareWord16(1) == 1
  {
  }

  lemma Doubles8()
    ensures Doubles(Register8(), SQUARE_8)
  {
    hide Follows, Mask, Word, Pow2, Gf.TimesX, BitMap.Apply, Gf.HasShape, BitMap.Valid, BitMap.ApplyWord, StepWord,
         SquareWord8;
    var g := Register8();
    Shape8();
    SquaresFollow8();
    Polynomials();
    MaskValues();
    OneWord();
    SquareWords(1);
    SquareWords(0x1D);
    OneIsSquare(SQUARE_8);
    LastStep(g);
    Bits();
    forall i | 0 <= i < 8 ensures SQUARE_8.Apply(g.TimesX(Pow2(i))) == g.TimesX(g.TimesX(SQUARE_8.Apply(Pow2(i)))) {
      BitsDouble(g, SQUARE_8, i);
    }
  }

  lemma LastStep(g: Gf)
    requires g.HasShape() && g.width <= 16
    ensures g.width > 0
    ensures Word(g.TimesX(Pow2(g.width - 1))) == StepWord(Word(Pow2(g.width - 1)), Word(g.poly), Mask(g.width - 1))
  {
    hide Gf.TimesX, StepWord, Word, Mask, Pow2;
    TimesXUnfold(g, 0);
    OrderIs(g);
    PowRises(g.width - 1, g.width);
    StepIsTimesX(g, Pow2(g.width - 1));
  }

  lemma SquaresLow16()
    ensures SQUARE_16.low.Words()[0] == 0x0001 && SQUARE_16.low.Words()[1] == 0x0004
    ensures SQUARE_16.low.Words()[2] == 0x0010 && SQUARE_16.low.Words()[3] == 0x0040
    ensures SQUARE_16.low.Words()[4] == 0x0100 && SQUARE_16.low.Words()[5] == 0x0400
    ensures SQUARE_16.low.Words()[6] == 0x1000 && SQUARE_16.low.Words()[7] == 0x4000
  {
  }

  lemma FollowsLow16(i: nat)
    requires i < 7
    ensures Follows(0x1002D, 0x7FFF, SQUARE_16.low.Words()[i + 1], SQUARE_16.low.Words()[i])
  {
    hide *;
    SquaresFollow16();
    SquaresLow16();
  }

  lemma SquaresHigh16()
    ensures SQUARE_16.high.Words()[0] == 0x002D && SQUARE_16.high.Words()[1] == 0x00B4
    ensures SQUARE_16.high.Words()[2] == 0x02D0 && SQUARE_16.high.Words()[3] == 0x0B40
    ensures SQUARE_16.high.Words()[4] == 0x2D00 && SQUARE_16.high.Words()[5] == 0xB400
    ensures SQUARE_16.high.Words()[6] == 0xD05A && SQUARE_16.high.Words()[7] == 0x411F
  {
  }

  lemma FollowsHigh16(i: nat)
    requires i < 7
    ensures Follows(0x1002D, 0x7FFF, SQUARE_16.high.Words()[i + 1], SQUARE_16.high.Words()[i])
  {
    hide *;
    SquaresFollow16();
    SquaresHigh16();
  }

  lemma WordsFollow16(i: nat)
    requires i < 15
    ensures Follows(0x1002D, 0x7FFF, SQUARE_16.Words()[i + 1], SQUARE_16.Words()[i])
  {
    hide Follows;
    if i < 7 {
      FollowsLow16(i);
    } else if i == 7 {
      SquaresFollow16();
      assert SQUARE_16.Words()[8] == SQUARE_16.high.Words()[0];
    } else {
      FollowsHigh16(i - 8);
      assert SQUARE_16.Words()[i + 1] == SQUARE_16.high.Words()[i - 7];
    }
  }

  lemma WordsEnd16()
    ensures SQUARE_16.Words()[15] == 0x411F
  {
  }

  lemma Doubles16()
    ensures Doubles(Register16(), SQUARE_16)
  {
    hide BitMap.Words, Follows, Mask, Word, Pow2, Gf.TimesX, BitMap.Apply, Gf.HasShape, BitMap.Valid, BitMap.ApplyWord,
         StepWord, SquareWord16;
    var g := Register16();
    Shape16();
    Valid16();
    SquaresFollow16();
    Polynomials();
    MaskValues();
    OneWord();
    SquareWords(1);
    SquareWords(0x2D);
    OneIsSquare(SQUARE_16);
    LastStep(g);
    Bits();
    forall i | 0 <= i < 16
      ensures SQUARE_16.Apply(g.TimesX(Pow2(i))) == g.TimesX(g.TimesX(SQUARE_16.Apply(Pow2(i))))
    {
      ImageOfBit(SQUARE_16, i);
      if i < 15 {
        WordsFollow16(i);
      } else {
        WordsEnd16();
      }
      BitsDouble(g, SQUARE_16, i);
    }
  }

  // ---------- Full period ----------

  lemma FirstPower(g: Gf)
    requires g.HasShape() && g.width > 1
    ensures Word(g.Exp(1)) == 2
  {
    hide Word, Pow2;
    g.ExpZero();
    g.ShiftUnfold(1, 1);
    TimesXUnfold(g, 1);
    PowZero();
    PowRises(0, g.width - 1);
    Bits();
    PowStep(1);
  }

  lemma ByteSteps1()
    ensures Next(false, 0x02, true) == 0x08 && Next(false, 0x08, true) == 0x80
    ensures Next(false, 0x80, true) == 0x26 && Next(false, 0x26, true) == 0xC0
    ensures Next(false, 0xC0, true) == 0xA1 && Next(false, 0xA1, true) == 0xCC
    ensures Next(false, 0xCC, true) == 0x01
  {
  }

  lemma ByteThirdSteps1()
    ensures Next(false, 0x02, false) == 0x04 && Next(false, 0x04, true) == 0x20
    ensures Next(false, 0x20, false) == 0x74 && Next(false, 0x74, true) == 0x75
    ensures Next(false, 0x75, false) == 0xB5 && Next(false, 0xB5, true) == 0xD6
  {
  }

  lemma ByteFifthSteps1()
    ensures Next(false, 0x08, false) == 0x40 && Next(false, 0x40, false) == 0xCD
    ensures Next(false, 0xCD, true) == 0x03 && Next(false, 0x03, true) == 0x0A
  {
  }

  lemma TotalSteps1()
    ensures Next(true, 0x0002, true) == 0x0008 && Next(true, 0x0008, true) == 0x0080
    ensures Next(true, 0x0080, true) == 0x8000 && Next(true, 0x8000, true) == 0x823E
    ensures Next(true, 0x823E, true) == 0x89FE && Next(true, 0x89FE, true) == 0x3E4C
    ensures Next(true, 0x3E4C, true) == 0x00C5 && Next(true, 0x00C5, true) == 0xA022
  {
  }

  lemma TotalSteps2()
    ensures Next(true, 0xA022, true) == 0xE21B && Next(true, 0xE21B, true) == 0x4968
    ensures Next(true, 0x4968, true) == 0x9EC3 && Next(true, 0x9EC3, true) == 0x6A7C
    ensures Next(true, 0x6A7C, true) == 0xF5FC && Next(true, 0xF5FC, true) == 0xBFD0
    ensures Next(true, 0xBFD0, true) == 0x0001
  {
  }

  lemma ThirdSteps1()
    ensures Next(true, 0x0002, false) == 0x0004 && Next(true, 0x0004, true) == 0x0020
    ensures Next(true, 0x0020, false) == 0x0400 && Next(true, 0x0400, true) == 0x05A0
    ensures Next(true, 0x05A0, false) == 0x46FD && Next(true, 0x46FD, true) == 0x0EF3
    ensures Next(true, 0x0EF3, false) == 0x5C21 && Next(true, 0x5C21, true) == 0xE1BB
  {
  }

  lemma ThirdSteps2()
    ensures Next(true, 0xE1BB, false) == 0x602D && Next(true, 0x602D, true) == 0xC016
    ensures Next(true, 0xC016, false) == 0x9051 && Next(true, 0x9051, true) == 0xFA3C
    ensures Next(true, 0xFA3C, false) == 0x06E1 && Next(true, 0x06E1, true) == 0xACCA
  {
  }

  lemma FifthSteps1()
    ensures Next(true, 0x0008, false) == 0x0040 && Next(true, 0x0040, false) == 0x1000
    ensures Next(true, 0x1000, true) == 0x5A00 && Next(true, 0x5A00, true) == 0xED71
    ensures Next(true, 0xED71, false) == 0x39F9 && Next(true, 0x39F9, false) == 0xC72C
    ensures Next(true, 0xC72C, true) == 0x2E95 && Next(true, 0x2E95, true) == 0xF847
  {
  }

  lemma FifthSteps2()
    ensures Next(true, 0xF847, false) == 0x1310 && Next(true, 0x1310, false) == 0x2C99
    ensures Next(true, 0x2C99, true) == 0xF98F && Next(true, 0xF98F, true) == 0x86FA
  {
  }

  lemma SeventeenthSteps1()
    ensures Next(true, 0x8000, false) == 0x411F && Next(true, 0x411F, false) == 0xD122
    ensures Next(true, 0xD122, false) == 0xB86C && Next(true, 0xB86C, false) == 0xC70F
    ensures Next(true, 0xC70F, true) == 0x269F && Next(true, 0x269F, true) == 0xEE4F
    ensures Next(true, 0xEE4F, true) == 0x7868 && Next(true, 0x7868, true) == 0xACB4
  {
  }

  lemma Chosen()
    ensures RegisterOf(false) == Register8() && SquareOf(false) == SQUARE_8
    ensures RegisterOf(true) == Register16() && SquareOf(true) == SQUARE_16
  {
  }

  lemma Powers8()
    ensures Word(Register8().Exp(255)) == 1 && Word(Register8().Exp(85)) == 0xD6
    ensures Word(Register8().Exp(51)) == 0x0A && Word(Register8().Exp(15)) == 0x26
  {
    hide *;
    var g := Register8();
    Shape8();
    Width8();
    Polynomials();
    MaskValues();
    Doubles8();
    Chosen();
    FirstPower(g);
    ByteSteps1();
    Climb(false, 1, 0x02, true, 0x08);
    Climb(false, 3, 0x08, true, 0x80);
    Climb(false, 7, 0x80, true, 0x26);
    Climb(false, 15, 0x26, true, 0xC0);
    Climb(false, 31, 0xC0, true, 0xA1);
    Climb(false, 63, 0xA1, true, 0xCC);
    Climb(false, 127, 0xCC, true, 0x01);
    ByteThirdSteps1();
    Climb(false, 1, 0x02, false, 0x04);
    Climb(false, 2, 0x04, true, 0x20);
    Climb(false, 5, 0x20, false, 0x74);
    Climb(false, 10, 0x74, true, 0x75);
    Climb(false, 21, 0x75, false, 0xB5);
    Climb(false, 42, 0xB5, true, 0xD6);
    ByteFifthSteps1();
    Climb(false, 3, 0x08, false, 0x40);
    Climb(false, 6, 0x40, false, 0xCD);
    Climb(false, 12, 0xCD, true, 0x03);
    Climb(false, 25, 0x03, true, 0x0A);
  }

  lemma Width8()
    ensures Register8().width == 8 && Register8().poly == 0x11D
  {
  }

  lemma Width16()
    ensures Register16().width == 16 && Register16().poly == 0x1002D
  {
  }

  lemma Powers16()
    ensures Word(Register16().Exp(65535)) == 1 && Word(Register16().Exp(21845)) == 0xACCA
    ensures Word(Register16().Exp(13107)) == 0x86FA && Word(Register16().Exp(3855)) == 0xACB4
    ensures Word(Register16().Exp(255)) == 0xC5
  {
    hide *;
    var g := Register16();
    Shape16();
    Width16();
    Polynomials();
    MaskValues();
    Doubles16();
    Chosen();
    FirstPower(g);
    TotalSteps1();
    Climb(true, 1, 0x0002, true, 0x0008);
    Climb(true, 3, 0x0008, true, 0x0080);
    Climb(true, 7, 0x0080, true, 0x8000);
    Climb(true, 15, 0x8000, true, 0x823E);
    Climb(true, 31, 0x823E, true, 0x89FE);
    Climb(true, 63, 0x89FE, true, 0x3E4C);
    Climb(true, 127, 0x3E4C, true, 0x00C5);
    Climb(true, 255, 0x00C5, true, 0xA022);
    TotalSteps2();
    Climb(true, 511, 0xA022, true, 0xE21B);
    Climb(true, 1023, 0xE21B, true, 0x4968);
    Climb(true, 2047, 0x4968, true, 0x9EC3);
    Climb(true, 4095, 0x9EC3, true, 0x6A7C);
    Climb(true, 8191, 0x6A7C, true, 0xF5FC);
    Climb(true, 16383, 0xF5FC, true, 0xBFD0);
    Climb(true, 32767, 0xBFD0, true, 0x0001);
    ThirdSteps1();
    Climb(true, 1, 0x0002, false, 0x0004);
    Climb(true, 2, 0x0004, true, 0x0020);
    Climb(true, 5, 0x0020, false, 0x0400);
    Climb(true, 10, 0x0400, true, 0x05A0);
    Climb(true, 21, 0x05A0, false, 0x46FD);
    Climb(true, 42, 0x46FD, true, 0x0EF3);
    Climb(true, 85, 0x0EF3, false, 0x5C21);
    Climb(true, 170, 0x5C21, true, 0xE1BB);
    ThirdSteps2();
    Climb(true, 341, 0xE1BB, false, 0x602D);
    Climb(true, 682, 0x602D, true, 0xC016);
    Climb(true, 1365, 0xC016, false, 0x9051);
    Climb(true, 2730, 0x9051, true, 0xFA3C);
    Climb(true, 5461, 0xFA3C, false, 0x06E1);
    Climb(true, 10922, 0x06E1, true, 0xACCA);
    FifthSteps1();
    Climb(true, 3, 0x0008, false, 0x0040);
    Climb(true, 6, 0x0040, false, 0x1000);
    Climb(true, 12, 0x1000, true, 0x5A00);
    Climb(true, 25, 0x5A00, true, 0xED71);
    Climb(true, 51, 0xED71, false, 0x39F9);
    Climb(true, 102, 0x39F9, false, 0xC72C);
    Climb(true, 204, 0xC72C, true, 0x2E95);
    Climb(true, 409, 0x2E95, true, 0xF847);
    FifthSteps2();
    Climb(true, 819, 0xF847, false, 0x1310);
    Climb(true, 1638, 0x1310, false, 0x2C99);
    Climb(true, 3276, 0x2C99, true, 0xF98F);
    Climb(true, 6553, 0xF98F, true, 0x86FA);
    SeventeenthSteps1();
    Climb(true, 15, 0x8000, false, 0x411F);
    Climb(true, 30, 0x411F, false, 0xD122);
    Climb(true, 60, 0xD122, false, 0xB86C);
    Climb(true, 120, 0xB86C, false, 0xC70F);
    Climb(true, 240, 0xC70F, true, 0x269F);
    Climb(true, 481, 0x269F, true, 0xEE4F);
    Climb(true, 963, 0xEE4F, true, 0x7868);
    Climb(true, 1927, 0x7868, true, 0xACB4);
  }

  // Powers are told apart from 1 by their words.
  lemma TellsOne(g: Gf, n: nat)
    requires g.HasShape() && g.width <= 16
    ensures Word(g.Exp(n)) == 1 <==> g.Exp(n) == 1
  {
    hide Word, Gf.Shift, Pow2;
    Bits();
    PowZero();
    OneBelow(g);
    g.ShiftBound(1, n);
    if Word(g.Exp(n)) == 1 {
      SameWord(g.Exp(n), 1, g.width);
    }
  }

  // The registers return to 1 after 255 and 65535 steps and not before.
  lemma FullPeriod8()
    ensures Register8().FullPeriod() && Register8().Order() == 256
  {
    hide Word, Gf.Shift, Pow2, Prime, Gf.HasShape, Gf.FullPeriod, Gf.Order, Gf.Exp;
    var g := Register8();
    var ps := [3, 5, 17];
    Shape8();
    Powers8();
    FermatPrimes();
    TellsOne(g, 255);
    TellsOne(g, 85);
    TellsOne(g, 51);
    TellsOne(g, 15);
    forall p | p in ps ensures Prime(p) && forall q: nat | p * q == 255 :: g.Exp(q) != 1 {
      assert p == 3 || p == 5 || p == 17;
    }
    ProductOfThree(3, 5, 17);
    g.PeriodFromPrimes(ps);
  }

  lemma ProductOfThree(a: nat, b: nat, c: nat)
    ensures Product([a, b, c]) == a * (b * c)
  {
    assert [a, b, c][1..] == [b, c] && [b, c][1..] == [c] && [c][1..] == [];
    assert Product([c]) == c && Product([b, c]) == b * c;
  }

  lemma ProductOfFour(a: nat, b: nat, c: nat, d: nat)
    ensures Product([a, b, c, d]) == a * (b * (c * d))
  {
    assert [a, b, c, d][1..] == [b, c, d];
    ProductOfThree(b, c, d);
  }

  lemma FullPeriod16()
    ensures Register16().FullPeriod() && Register16().Order() == 65536
  {
    hide Word, Gf.Shift, Pow2, Prime, Gf.HasShape, Gf.FullPeriod, Gf.Order, Gf.Exp;
    var g := Register16();
    var ps := [3, 5, 17, 257];
    Shape16();
    Width16();
    Powers16();
    FermatPrimes();
    TellsOne(g, 65535);
    TellsOne(g, 21845);
    TellsOne(g, 13107);
    TellsOne(g, 3855);
    TellsOne(g, 255);
    forall p | p in ps ensures Prime(p) && forall q: nat | p * q == 65535 :: g.Exp(q) != 1 {
      assert p == 3 || p == 5 || p == 17 || p == 257;
    }
    ProductOfFour(3, 5, 17, 257);
    g.PeriodFromPrimes(ps);
  }
}
