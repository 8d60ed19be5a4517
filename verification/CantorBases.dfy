// The Cantor bases of the two field widths, and the changes of basis between them and the
// registers.
module CantorBases {

  import opened BitXor
  import opened Words
  import opened BitMaps

  // cantorBasis of leopard8.go, and the elements that stand for the single bits of the register.
  const CANTOR_8: BitMap := Narrow(Eight(0x01, 0xD6, 0x98, 0x92, 0x56, 0xC8, 0x58, 0xE6))
  const REGISTER_8: BitMap := Narrow(Eight(0x01, 0x68, 0x5C, 0x64, 0x72, 0xF0, 0x56, 0x12))

  // Both changes of basis on words.
  function FromCantor8(w: bv20): bv20 {
    Pick(w, 0x01, 0xD6, 0x98, 0x92, 0x56, 0xC8, 0x58, 0xE6)
  }

  function ToCantor8(w: bv20): bv20 {
    Pick(w, 0x01, 0x68, 0x5C, 0x64, 0x72, 0xF0, 0x56, 0x12)
  }

  lemma Changes8(w: bv20)
    ensures CANTOR_8.ApplyWord(w) == FromCantor8(w) && REGISTER_8.ApplyWord(w) == ToCantor8(w)
  {
    hide Pick;
  }

  lemma Cantor8Words()
    ensures CANTOR_8.low.Words()[0] == 0x01 && CANTOR_8.low.Words()[1] == 0xD6
    ensures CANTOR_8.low.Words()[2] == 0x98 && CANTOR_8.low.Words()[3] == 0x92
    ensures CANTOR_8.low.Words()[4] == 0x56 && CANTOR_8.low.Words()[5] == 0xC8
    ensures CANTOR_8.low.Words()[6] == 0x58 && CANTOR_8.low.Words()[7] == 0xE6
  {
  }

  lemma Register8Words()
    ensures REGISTER_8.low.Words()[0] == 0x01 && REGISTER_8.low.Words()[1] == 0x68
    ensures REGISTER_8.low.Words()[2] == 0x5C && REGISTER_8.low.Words()[3] == 0x64
    ensures REGISTER_8.low.Words()[4] == 0x72 && REGISTER_8.low.Words()[5] == 0xF0
    ensures REGISTER_8.low.Words()[6] == 0x56 && REGISTER_8.low.Words()[7] == 0x12
  {
  }

  lemma Cantor8Undone()
    ensures ToCantor8(0x01) == 0x1 && ToCantor8(0xD6) == 0x2
    ensures ToCantor8(0x98) == 0x4 && ToCantor8(0x92) == 0x8
    ensures ToCantor8(0x56) == 0x10 && ToCantor8(0xC8) == 0x20
    ensures ToCantor8(0x58) == 0x40 && ToCantor8(0xE6) == 0x80
  {
  }

  lemma Register8Undone()
    ensures FromCantor8(0x01) == 0x1 && FromCantor8(0x68) == 0x2
    ensures FromCantor8(0x5C) == 0x4 && FromCantor8(0x64) == 0x8
    ensures FromCantor8(0x72) == 0x10 && FromCantor8(0xF0) == 0x20
    ensures FromCantor8(0x56) == 0x40 && FromCantor8(0x12) == 0x80
  {
  }

  lemma CantorImage8(i: nat)
    requires i < 8
    ensures ToCantor8(CANTOR_8.low.Words()[i]) == Word(Pow2(i))
  {
    hide *;
    Bits();
    Cantor8Words();
    Cantor8Undone();
  }

  lemma RegisterImage8(i: nat)
    requires i < 8
    ensures FromCantor8(REGISTER_8.low.Words()[i]) == Word(Pow2(i))
  {
    hide *;
    Bits();
    Register8Words();
    Register8Undone();
  }

  lemma Bases8Valid()
    ensures CANTOR_8.Valid() && REGISTER_8.Valid() && CANTOR_8.Width() == REGISTER_8.Width() == 8
    ensures CANTOR_8.Words() == CANTOR_8.low.Words() && REGISTER_8.Words() == REGISTER_8.low.Words()
  {
    MaskValues();
    hide Mask;
  }

  lemma Bases8()
    ensures Undoes(CANTOR_8, REGISTER_8) && Undoes(REGISTER_8, CANTOR_8)
  {
    hide BitMap.ApplyWord, Word, Pow2, BitMap.Valid, BitMap.Words, Eight.Words, FromCantor8, ToCantor8;
    Bases8Valid();
    forall i | 0 <= i < 8
      ensures REGISTER_8.ApplyWord(CANTOR_8.Words()[i]) == Word(Pow2(i))
      ensures CANTOR_8.ApplyWord(REGISTER_8.Words()[i]) == Word(Pow2(i))
    {
      CantorImage8(i);
      Changes8(CANTOR_8.Words()[i]);
      RegisterImage8(i);
      Changes8(REGISTER_8.Words()[i]);
    }
  }

  // cantorBasis of leopard.go, and the elements that stand for the single bits of the register.
  const CANTOR_16: BitMap := Wide(Eight(0x0001, 0xACCA, 0x3C0E, 0x163E, 0xC582, 0xED2E, 0x914C, 0x4012),
                                  Eight(0x6C98, 0x10D8, 0x6A72, 0xB900, 0xFDB8, 0xFB34, 0xFF38, 0x991E))
  const REGISTER_16: BitMap := Wide(Eight(0x0001, 0x4690, 0x65D8, 0x62D0, 0x5734, 0x45F0, 0x53B8, 0x1E38),
                                    Eight(0x7CAE, 0x4E38, 0x6708, 0xC25C, 0x7A64, 0x9EAC, 0x1124, 0x523A))

  function FromCantor16(w: bv20): bv20 {
    Plus(Pick(w, 0x0001, 0xACCA, 0x3C0E, 0x163E, 0xC582, 0xED2E, 0x914C, 0x4012),
         Pick(w >> 8, 0x6C98, 0x10D8, 0x6A72, 0xB900, 0xFDB8, 0xFB34, 0xFF38, 0x991E))
  }

  function ToCantor16(w: bv20): bv20 {
    Plus(Pick(w, 0x0001, 0x4690, 0x65D8, 0x62D0, 0x5734, 0x45F0, 0x53B8, 0x1E38),
         Pick(w >> 8, 0x7CAE, 0x4E38, 0x6708, 0xC25C, 0x7A64, 0x9EAC, 0x1124, 0x523A))
  }

  lemma Changes16(w: bv20)
    ensures CANTOR_16.ApplyWord(w) == FromCantor16(w) && REGISTER_16.ApplyWord(w) == ToCantor16(w)
  {
    hide Pick, Plus;
  }

  lemma CantorLowWords()
    ensures CANTOR_16.low.Words()[0] == 0x0001 && CANTOR_16.low.Words()[1] == 0xACCA
    ensures CANTOR_16.low.Words()[2] == 0x3C0E && CANTOR_16.low.Words()[3] == 0x163E
    ensures CANTOR_16.low.Words()[4] == 0xC582 && CANTOR_16.low.Words()[5] == 0xED2E
    ensures CANTOR_16.low.Words()[6] == 0x914C && CANTOR_16.low.Words()[7] == 0x4012
  {
  }

  lemma CantorHighWords()
    ensures CANTOR_16.high.Words()[0] == 0x6C98 && CANTOR_16.high.Words()[1] == 0x10D8
    ensures CANTOR_16.high.Words()[2] == 0x6A72 && CANTOR_16.high.Words()[3] == 0xB900
    ensures CANTOR_16.high.Words()[4] == 0xFDB8 && CANTOR_16.high.Words()[5] == 0xFB34
    ensures CANTOR_16.high.Words()[6] == 0xFF38 && CANTOR_16.high.Words()[7] == 0x991E
  {
  }

  lemma RegisterLowWords()
    ensures REGISTER_16.low.Words()[0] == 0x0001 && REGISTER_16.low.Words()[1] == 0x4690
    ensures REGISTER_16.low.Words()[2] == 0x65D8 && REGISTER_16.low.Words()[3] == 0x62D0
    ensures REGISTER_16.low.Words()[4] == 0x5734 && REGISTER_16.low.Words()[5] == 0x45F0
    ensures REGISTER_16.low.Words()[6] == 0x53B8 && REGISTER_16.low.Words()[7] == 0x1E38
  {
  }

  lemma RegisterHighWords()
    ensures REGISTER_16.high.Words()[0] == 0x7CAE && REGISTER_16.high.Words()[1] == 0x4E38
    ensures REGISTER_16.high.Words()[2] == 0x6708 && REGISTER_16.high.Words()[3] == 0xC25C
    ensures REGISTER_16.high.Words()[4] == 0x7A64 && REGISTER_16.high.Words()[5] == 0x9EAC
    ensures REGISTER_16.high.Words()[6] == 0x1124 && REGISTER_16.high.Words()[7] == 0x523A
  {
  }

  lemma CantorLowUndone()
    ensures ToCantor16(0x0001) == 0x1 && ToCantor16(0xACCA) == 0x2
    ensures ToCantor16(0x3C0E) == 0x4 && ToCantor16(0x163E) == 0x8
    ensures ToCantor16(0xC582) == 0x10 && ToCantor16(0xED2E) == 0x20
    ensures ToCantor16(0x914C) == 0x40 && ToCantor16(0x4012) == 0x80
  {
  }

  lemma CantorHighUndone()
    ensures ToCantor16(0x6C98) == 0x100 && ToCantor16(0x10D8) == 0x200
    ensures ToCantor16(0x6A72) == 0x400 && ToCantor16(0xB900) == 0x800
    ensures ToCantor16(0xFDB8) == 0x1000 && ToCantor16(0xFB34) == 0x2000
    ensures ToCantor16(0xFF38) == 0x4000 && ToCantor16(0x991E) == 0x8000
  {
  }

  lemma RegisterLowUndone()
    ensures FromCantor16(0x0001) == 0x1 && FromCantor16(0x4690) == 0x2
    ensures FromCantor16(0x65D8) == 0x4 && FromCantor16(0x62D0) == 0x8
    ensures FromCantor16(0x5734) == 0x10 && FromCantor16(0x45F0) == 0x20
    ensures FromCantor16(0x53B8) == 0x40 && FromCantor16(0x1E38) == 0x80
  {
  }

  lemma RegisterHighUndone()
    ensures FromCantor16(0x7CAE) == 0x100 && FromCantor16(0x4E38) == 0x200
    ensures FromCantor16(0x6708) == 0x400 && FromCantor16(0xC25C) == 0x800
    ensures FromCantor16(0x7A64) == 0x1000 && FromCantor16(0x9EAC) == 0x2000
    ensures FromCantor16(0x1124) == 0x4000 && FromCantor16(0x523A) == 0x8000
  {
  }

  lemma CantorImage(i: nat)
    requires i < 16
    ensures ToCantor16(CANTOR_16.Words()[i]) == Word(Pow2(i))
  {
    hide *;
    Bits();
    AreWide();
    WideWords(CANTOR_16, i);
    if i < 8 {
      CantorLowWords();
      CantorLowUndone();
    } else {
      CantorHighWords();
      CantorHighUndone();
    }
  }

  lemma RegisterImage(i: nat)
    requires i < 16
    ensures FromCantor16(REGISTER_16.Words()[i]) == Word(Pow2(i))
  {
    hide *;
    Bits();
    AreWide();
    WideWords(REGISTER_16, i);
    if i < 8 {
      RegisterLowWords();
      RegisterLowUndone();
    } else {
      RegisterHighWords();
      RegisterHighUndone();
    }
  }

  lemma AreWide()
    ensures CANTOR_16.Wide? && REGISTER_16.Wide?
  {
  }

  lemma WideWords(m: BitMap, i: nat)
    requires m.Wide? && i < 16
    ensures m.Words()[i] == if i < 8 then m.low.Words()[i] else m.high.Words()[i - 8]
  {
  }

  lemma Cantor16Valid()
    ensures CANTOR_16.Valid() && CANTOR_16.Width() == 16
  {
    MaskValues();
    hide Mask;
  }

  lemma Register16Valid()
    ensures REGISTER_16.Valid() && REGISTER_16.Width() == 16
  {
    MaskValues();
    hide Mask;
  }

  lemma Bases16()
    ensures Undoes(CANTOR_16, REGISTER_16) && Undoes(REGISTER_16, CANTOR_16)
  {
    hide BitMap.ApplyWord, Word, Pow2, BitMap.Valid, BitMap.Words, FromCantor16, ToCantor16;
    Cantor16Valid();
    Register16Valid();
    forall i | 0 <= i < 16
      ensures REGISTER_16.ApplyWord(CANTOR_16.Words()[i]) == Word(Pow2(i))
      ensures CANTOR_16.ApplyWord(REGISTER_16.Words()[i]) == Word(Pow2(i))
    {
      CantorImage(i);
      Changes16(CANTOR_16.Words()[i]);
      RegisterImage(i);
      Changes16(REGISTER_16.Words()[i]);
    }
  }
}
