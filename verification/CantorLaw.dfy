// What makes the bases Cantor bases: an element plus its square is the element with its lowest
// bit dropped and the others moved down.
module CantorLaw {

  import opened BitXor
  import opened Words
  import opened BinaryField
  import opened BitMaps
  import opened Registers
  import opened CantorBases
  import opened CantorField
  import opened LeopardField

  // The square map agrees with the field.
  ghost predicate Squares(g: Gf, square: BitMap) {
    g.Valid() && square.Width() == g.width && forall a: nat | a < g.Order() :: square.Apply(a) == g.Mul(a, a)
  }

  lemma SquareOfElement(reg: Gf, g: Gf, square: BitMap, a: nat)
    requires Doubles(reg, square) && g == reg.WithLogs() && g.Valid() && a < g.Order()
    ensures square.Apply(a) == g.Mul(a, a)
  {
    hide Doubles, Gf.Shift, Gf.WithLogs, BitMap.Apply;
    if a == 0 {
      square.IsLinear(0, 0);
    } else {
      var n := g.log[a];
      reg.SameRegister(1, n);
      reg.SameRegister(1, 2 * n);
      SquareExp(reg, square, n);
    }
  }

  // The sum of an element and the one moved down, in the register's form.
  ghost function Moved(f: Field): nat -> nat {
    (x: nat) => Xor(f.basis.Apply(x), f.basis.Apply(x / 2))
  }

  lemma MovedLinear(f: Field, x: nat, y: nat)
    ensures Moved(f)(Xor(x, y)) == Xor(Moved(f)(x), Moved(f)(y))
  {
    hide Xor, BitMap.Apply;
    XorStep(x, y);
    f.basis.IsLinear(x, y);
    f.basis.IsLinear(x / 2, y / 2);
    XorExchange(f.basis.Apply(x), f.basis.Apply(y), f.basis.Apply(x / 2), f.basis.Apply(y / 2));
  }

  // Bit i obeys the law.
  ghost predicate MovesAt(f: Field, square: BitMap, i: nat)
    requires i < f.basis.Width()
  {
    square.ApplyWord(f.basis.Words()[i]) == Plus(f.basis.Words()[i], if i == 0 then 0 else f.basis.Words()[i - 1])
  }

  ghost predicate BitsMove(f: Field, square: BitMap) {
    forall i: nat | i < f.basis.Width() :: MovesAt(f, square, i)
  }

  lemma BitMoves(f: Field, square: BitMap, i: nat)
    requires f.Valid() && square.Valid() && square.Width() == f.g.width && BitsMove(f, square) && i < f.g.width
    ensures square.Apply(f.basis.Apply(Pow2(i))) == Moved(f)(Pow2(i))
  {
    hide Xor, BitMap.Apply, BitMap.ApplyWord, Pow2, Word, Gf.Valid, Gf.Order, Undoes, BitMap.Valid, BitMap.Words, Plus;
    f.Sizes();
    var k := f.g.width;
    ImageOfBit(f.basis, i);
    var image := f.basis.Apply(Pow2(i));
    square.IsWord(image);
    square.Bound(image);
    if i == 0 {
      PowZero();
      f.Bounds(0);
      WordZero();
    } else {
      PowStep(i);
      ImageOfBit(f.basis, i - 1);
    }
    f.basis.Bound(Pow2(i) / 2);
    WordXor(image, f.basis.Apply(Pow2(i) / 2));
    XorBound(image, f.basis.Apply(Pow2(i) / 2), k);
    MoveIs(f, square, i);
    SameWord(square.Apply(image), Moved(f)(Pow2(i)), k);
  }

  lemma SquareMoves(f: Field, square: BitMap, a: nat)
    requires f.Valid() && square.Valid() && square.Width() == f.g.width && BitsMove(f, square) && a < f.Order()
    ensures square.Apply(f.basis.Apply(a)) == Xor(f.basis.Apply(a), f.basis.Apply(a / 2))
  {
    hide Xor, BitMap.Apply, BitMap.ApplyWord, Pow2, Gf.Valid, Gf.Order, Undoes, BitMap.Valid, BitsMove, Linear;
    f.Sizes();
    var k := f.g.width;
    ComposedLinear(f.basis, square, k);
    BothMovedLinear(f, k);
    forall i | 0 <= i < k ensures Composed(f.basis, square)(Pow2(i)) == Moved(f)(Pow2(i)) {
      BitMoves(f, square, i);
    }
    Extends(Composed(f.basis, square), Moved(f), k, k, a);
  }

  lemma BothMovedLinear(f: Field, k: nat)
    ensures Linear(Moved(f), k)
  {
    hide Moved, Xor, Pow2;
    forall x: nat, y: nat | x < Pow2(k) && y < Pow2(k) ensures Moved(f)(Xor(x, y)) == Xor(Moved(f)(x), Moved(f)(y)) {
      MovedLinear(f, x, y);
    }
  }

  lemma CantorFromBits(f: Field, square: BitMap)
    requires f.Valid() && square.Valid() && Squares(f.g, square) && BitsMove(f, square) && f.basis.Apply(1) == 1
    ensures f.Cantor()
  {
    hide Xor, BitMap.Apply, BitMap.ApplyWord, Pow2, Gf.Valid, Gf.Mul, Undoes, BitMap.Valid, BitsMove, Field.Times;
    forall a: nat | a < f.Order() ensures f.Times(a, a) == Xor(a, a / 2) {
      f.Bounds(a);
      f.TimesForm(a, a);
      SquareMoves(f, square, a);
      f.XorBelow(a, a / 2);
      f.BasisLinear(a, a / 2);
      f.SameForm(f.Times(a, a), Xor(a, a / 2));
    }
  }

  // ---------- Both widths ----------

  lemma CantorBitsMove8()
    ensures SquareWord8(0x01) == Plus(0x01, 0x00)
    ensures SquareWord8(0xD6) == Plus(0xD6, 0x01)
    ensures SquareWord8(0x98) == Plus(0x98, 0xD6)
    ensures SquareWord8(0x92) == Plus(0x92, 0x98)
    ensures SquareWord8(0x56) == Plus(0x56, 0x92)
    ensures SquareWord8(0xC8) == Plus(0xC8, 0x56)
    ensures SquareWord8(0x58) == Plus(0x58, 0xC8)
    ensures SquareWord8(0xE6) == Plus(0xE6, 0x58)
  {
  }

  lemma BitsMove8()
    ensures BitsMove(Field8(), SQUARE_8)
  {
    hide *;
    forall i: nat | i < Field8().basis.Width() ensures MovesAt(Field8(), SQUARE_8, i) {
      BasisOf8();
      Cantor8Words();
      CantorBitsMove8();
      SquareWords(CANTOR_8.Words()[i]);
      MoveIs(Field8(), SQUARE_8, i);
    }
    AllMove(Field8(), SQUARE_8);
  }

  lemma BasisOf8()
    ensures Field8().basis == CANTOR_8 && CANTOR_8.Words() == CANTOR_8.low.Words() && CANTOR_8.Width() == 8
  {
  }

  lemma MoveIs(f: Field, square: BitMap, i: nat)
    requires i < f.basis.Width()
    ensures MovesAt(f, square, i) <==>
      square.ApplyWord(f.basis.Words()[i]) == Plus(f.basis.Words()[i], if i == 0 then 0 else f.basis.Words()[i - 1])
  {
  }

  lemma AllMove(f: Field, square: BitMap)
    requires forall i: nat | i < f.basis.Width() :: MovesAt(f, square, i)
    ensures BitsMove(f, square)
  {
  }

  lemma CantorBitsMoveLow()
    ensures SquareWord16(0x0001) == Plus(0x0001, 0x0000)
    ensures SquareWord16(0xACCA) == Plus(0xACCA, 0x0001)
    ensures SquareWord16(0x3C0E) == Plus(0x3C0E, 0xACCA)
    ensures SquareWord16(0x163E) == Plus(0x163E, 0x3C0E)
    ensures SquareWord16(0xC582) == Plus(0xC582, 0x163E)
    ensures SquareWord16(0xED2E) == Plus(0xED2E, 0xC582)
    ensures SquareWord16(0x914C) == Plus(0x914C, 0xED2E)
    ensures SquareWord16(0x4012) == Plus(0x4012, 0x914C)
  {
  }

  lemma CantorBitsMoveHigh()
    ensures SquareWord16(0x6C98) == Plus(0x6C98, 0x4012)
    ensures SquareWord16(0x10D8) == Plus(0x10D8, 0x6C98)
    ensures SquareWord16(0x6A72) == Plus(0x6A72, 0x10D8)
    ensures SquareWord16(0xB900) == Plus(0xB900, 0x6A72)
    ensures SquareWord16(0xFDB8) == Plus(0xFDB8, 0xB900)
    ensures SquareWord16(0xFB34) == Plus(0xFB34, 0xFDB8)
    ensures SquareWord16(0xFF38) == Plus(0xFF38, 0xFB34)
    ensures SquareWord16(0x991E) == Plus(0x991E, 0xFF38)
  {
  }

  lemma BitsMove16()
    ensures BitsMove(Field16(), SQUARE_16)
  {
    hide *;
    forall i: nat | i < Field16().basis.Width() ensures MovesAt(Field16(), SQUARE_16, i) {
      BasisOf16();
      BitMoves16(i);
      SquareWords(CANTOR_16.Words()[i]);
      MoveIs(Field16(), SQUARE_16, i);
    }
    AllMove(Field16(), SQUARE_16);
  }

  lemma BasisOf16()
    ensures Field16().basis == CANTOR_16 && CANTOR_16.Width() == 16 && CANTOR_16.Wide?
  {
  }

  lemma BitMoves16(i: nat)
    requires i < 16
    ensures SquareWord16(CANTOR_16.Words()[i])
         == Plus(CANTOR_16.Words()[i], if i == 0 then 0 else CANTOR_16.Words()[i - 1])
  {
    hide *;
    BasisOf16();
    WideWords(CANTOR_16, i);
    if i > 0 {
      WideWords(CANTOR_16, i - 1);
    }
    CantorLowWords();
    if i < 8 {
      CantorBitsMoveLow();
    } else {
      CantorHighWords();
      CantorBitsMoveHigh();
    }
  }

  lemma AllSquares(reg: Gf, g: Gf, square: BitMap)
    requires Doubles(reg, square) && g == reg.WithLogs() && g.Valid() && square.Width() == g.width
    ensures Squares(g, square)
  {
    hide *;
    SquaresIs(g, square);
    forall a: nat | a < g.Order() ensures square.Apply(a) == g.Mul(a, a) {
      SquareOfElement(reg, g, square, a);
    }
  }

  lemma SquaresIs(g: Gf, square: BitMap)
    requires g.Valid()
    ensures |g.log| == g.Order()
    ensures Squares(g, square) <==>
      square.Width() == g.width && forall a: nat | a < g.Order() :: square.Apply(a) == g.Mul(a, a)
  {
    hide Gf.Mul, BitMap.Apply;
  }

  lemma OneIsOne(f: Field)
    requires f.Valid() && f.basis.Words()[0] == 1
    ensures f.basis.Apply(1) == 1
  {
    hide BitMap.Apply, Pow2, Word, Gf.Valid, Gf.Order, Undoes, BitMap.Words;
    f.Sizes();
    Bits();
    PowZero();
    ImageOfBit(f.basis, 0);
    PowRises(0, f.g.width);
    SameWord(f.basis.Apply(1), 1, f.g.width);
  }

  lemma FirstWord8()
    ensures CANTOR_8.Words()[0] == 1
  {
  }

  lemma FirstWord16()
    ensures CANTOR_16.Words()[0] == 1
  {
  }

  // Both codecs use Cantor bases.
  lemma Cantor8()
    ensures Field8().Cantor() && Field8().Order() == 256
  {
    hide *;
    Field8Valid();
    Register8Is();
    Field8().GfShape();
    Doubles8();
    AllSquares(Register8(), Field8().g, SQUARE_8);
    BitsMove8();
    BasisOf8();
    FirstWord8();
    OneIsOne(Field8());
    SquareShape(Register8(), SQUARE_8);
    CantorFromBits(Field8(), SQUARE_8);
  }

  lemma Register8Is()
    ensures Field8().g == Register8().WithLogs() && Field8().g.width == 8 && SQUARE_8.Width() == 8
  {
    hide Gf.DiscreteLog;
  }

  lemma Register16Is()
    ensures Field16().g == Register16().WithLogs() && Field16().g.width == 16 && SQUARE_16.Width() == 16
  {
    hide Gf.DiscreteLog;
  }

  lemma SquareShape(g: Gf, square: BitMap)
    requires Doubles(g, square)
    ensures square.Valid()
  {
  }

  lemma Cantor16()
    ensures Field16().Cantor() && Field16().Order() == 65536
  {
    hide *;
    Field16Valid();
    Register16Is();
    Field16().GfShape();
    Doubles16();
    AllSquares(Register16(), Field16().g, SQUARE_16);
    BitsMove16();
    BasisOf16();
    FirstWord16();
    OneIsOne(Field16());
    SquareShape(Register16(), SQUARE_16);
    CantorFromBits(Field16(), SQUARE_16);
  }
}
