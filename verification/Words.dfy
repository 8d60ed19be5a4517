// Machine words for small numbers. With them the verifier computes in the fields of the codecs.
module Words {

  import opened BitXor

  // 2 * w + bit
  function Push(w: bv20, bit: bool): bv20 {
    if bit then (w << 1) ^ 1 else w << 1
  }

  function Plus(v: bv20, w: bv20): bv20 {
    v ^ w
  }

  predicate Exceeds(w: bv20, m: bv20) {
    w > m
  }

  // The word with the bits of n.
  function Word(n: nat): bv20 {
    if n == 0 then 0 else Push(Word(n / 2), n % 2 == 1)
  }

  lemma WordUnfold(n: nat)
    ensures Word(n) == Push(Word(n / 2), n % 2 == 1)
  {
  }

  lemma WordZero()
    ensures Word(0) == 0
  {
  }

  lemma PushSame(v: bv20, w: bv20)
    ensures Plus(Push(v, true), Push(w, true)) == Push(Plus(v, w), false)
    ensures Plus(Push(v, false), Push(w, false)) == Push(Plus(v, w), false)
  {
  }

  lemma PushOther(v: bv20, w: bv20)
    ensures Plus(Push(v, true), Push(w, false)) == Push(Plus(v, w), true)
    ensures Plus(Push(v, false), Push(w, true)) == Push(Plus(v, w), true)
  {
  }

  lemma PushPlus(v: bv20, w: bv20, a: bool, b: bool)
    ensures Plus(Push(v, a), Push(w, b)) == Push(Plus(v, w), a != b)
  {
    hide *;
    PushSame(v, w);
    PushOther(v, w);
  }

  lemma PlusLaws(v: bv20, w: bv20)
    ensures Plus(v, v) == 0 && Plus(v, 0) == v && Plus(0, v) == v && Plus(v, w) == Plus(w, v)
  {
  }

  lemma PlusAssociates(u: bv20, v: bv20, w: bv20)
    ensures Plus(Plus(u, v), w) == Plus(u, Plus(v, w))
  {
  }

  lemma {:induction false} WordXor(a: nat, b: nat)
    ensures Word(Xor(a, b)) == Plus(Word(a), Word(b))
    decreases a + b
  {
    hide *;
    if a == 0 && b == 0 {
      XorZero(0);
      WordZero();
      PlusLaws(0, 0);
    } else {
      WordXor(a / 2, b / 2);
      XorStep(a, b);
      WordUnfold(a);
      WordUnfold(b);
      WordUnfold(Xor(a, b));
      PushPlus(Word(a / 2), Word(b / 2), a % 2 == 1, b % 2 == 1);
    }
  }

  lemma WordDouble(a: nat)
    ensures Word(2 * a) == Push(Word(a), false)
  {
    hide *;
    WordUnfold(2 * a);
    assert 2 * a / 2 == a && 2 * a % 2 == 0;
  }

  // ---------- Order ----------

  // The low k bits set.
  function Mask(k: nat): bv20 {
    if k == 0 then 0 else Push(Mask(k - 1), true)
  }

  lemma Masks(k: nat)
    ensures Mask(0) == 0 && (k > 0 ==> Mask(k) == Push(Mask(k - 1), true))
  {
  }

  lemma MaskValues()
    ensures Mask(0) == 0 && Mask(1) == 1 && Mask(2) == 0x3 && Mask(3) == 0x7
    ensures Mask(4) == 0xF && Mask(5) == 0x1F && Mask(6) == 0x3F && Mask(7) == 0x7F
    ensures Mask(8) == 0xFF && Mask(9) == 0x1FF && Mask(10) == 0x3FF && Mask(11) == 0x7FF
    ensures Mask(12) == 0xFFF && Mask(13) == 0x1FFF && Mask(14) == 0x3FFF && Mask(15) == 0x7FFF
    ensures Mask(16) == 0xFFFF && Mask(17) == 0x1FFFF
  {
  }

  lemma MaskRoom(k: nat)
    requires k <= 17
    ensures !Exceeds(Mask(k), 0x1FFFF)
  {
    hide Mask;
    MaskValues();
  }

  lemma NextOdd(w: bv20, m: bv20)
    requires !Exceeds(w, 0x1FFFF) && !Exceeds(m, 0x1FFFF)
    ensures Exceeds(Push(w, true), Push(m, true)) <==> Exceeds(w, m)
  {
  }

  lemma NextEven(w: bv20, m: bv20)
    requires !Exceeds(w, 0x1FFFF) && !Exceeds(m, 0x1FFFF)
    ensures Exceeds(Push(w, false), Push(m, true)) <==> Exceeds(w, m)
  {
  }

  lemma NextBit(w: bv20, m: bv20, bit: bool)
    requires !Exceeds(w, 0x1FFFF) && !Exceeds(m, 0x1FFFF)
    ensures Exceeds(Push(w, bit), Push(m, true)) <==> Exceeds(w, m)
  {
    hide *;
    NextOdd(w, m);
    NextEven(w, m);
  }

  lemma ExceedsZero(m: bv20)
    ensures !Exceeds(0, m)
  {
  }

  lemma ExceedsOrder(w: bv20, m: bv20)
    requires !Exceeds(w, m) && !Exceeds(m, 0x1FFFF)
    ensures !Exceeds(w, 0x1FFFF)
  {
  }

  lemma PushNonzero(w: bv20, bit: bool)
    requires !Exceeds(w, 0x1FFFF) && (Exceeds(w, 0) || bit)
    ensures Exceeds(Push(w, bit), 0)
  {
  }

  lemma {:induction false} WordBelow(n: nat, k: nat)
    requires n < Pow2(k) && k <= 17
    ensures !Exceeds(Word(n), Mask(k)) && !Exceeds(Word(n), 0x1FFFF)
  {
    hide *;
    Masks(k);
    MaskRoom(k);
    if k == 0 {
      PowZero();
      WordZero();
      ExceedsZero(Mask(0));
    } else {
      PowStep(k);
      MaskRoom(k - 1);
      WordBelow(n / 2, k - 1);
      WordUnfold(n);
      NextBit(Word(n / 2), Mask(k - 1), n % 2 == 1);
    }
    ExceedsOrder(Word(n), Mask(k));
  }

  lemma {:induction false} WordAbove(n: nat, k: nat, room: nat)
    requires Pow2(k) <= n < Pow2(room) && room <= 17
    ensures k < room && Exceeds(Word(n), Mask(k))
    decreases n
  {
    hide *;
    Masks(k);
    WordUnfold(n);
    Rooms(n, k, room);
    WordBelow(n / 2, room - 1);
    if k > 0 {
      WordAbove(n / 2, k - 1, room - 1);
      MaskRoom(k - 1);
      NextBit(Word(n / 2), Mask(k - 1), n % 2 == 1);
    } else {
      if n / 2 != 0 {
        WordAbove(n / 2, 0, room - 1);
      }
      PushNonzero(Word(n / 2), n % 2 == 1);
    }
  }

  lemma Rooms(n: nat, k: nat, room: nat)
    requires Pow2(k) <= n < Pow2(room)
    ensures n > 0 && room > 0 && n / 2 < Pow2(room - 1)
    ensures k > 0 ==> Pow2(k - 1) <= n / 2
    ensures n / 2 != 0 ==> Pow2(0) <= n / 2
  {
  }

  // Different numbers have different words.
  lemma WordInjective(a: nat, b: nat)
    requires a < Pow2(16) && b < Pow2(16) && Word(a) == Word(b)
    ensures a == b
  {
    hide *;
    WordXor(a, b);
    PlusLaws(Word(a), 0);
    XorBound(a, b, 16);
    XorIsZero(a, b);
    if Xor(a, b) != 0 {
      PowZero();
      Masks(0);
      WordAbove(Xor(a, b), 0, 16);
      ExceedsZero(0);
    }
  }

  lemma {:induction false} PowRises(i: nat, k: nat)
    requires i < k
    ensures Pow2(i) < Pow2(k)
  {
    if i + 1 < k {
      PowRises(i, k - 1);
    }
  }

  lemma SameWord(a: nat, b: nat, k: nat)
    requires a < Pow2(k) && b < Pow2(k) && k <= 16 && Word(a) == Word(b)
    ensures a == b
  {
    hide *;
    if k < 16 {
      PowRises(k, 16);
    }
    WordInjective(a, b);
  }

  lemma NextBitWord(i: nat)
    requires i > 0
    ensures Word(Pow2(i)) == Push(Word(Pow2(i - 1)), false)
  {
    hide *;
    PowStep(i);
    WordDouble(Pow2(i - 1));
  }

  lemma Bits()
    ensures Word(Pow2(0)) == 0x1 && Word(Pow2(1)) == 0x2 && Word(Pow2(2)) == 0x4 && Word(Pow2(3)) == 0x8
    ensures Word(Pow2(4)) == 0x10 && Word(Pow2(5)) == 0x20 && Word(Pow2(6)) == 0x40 && Word(Pow2(7)) == 0x80
    ensures Word(Pow2(8)) == 0x100 && Word(Pow2(9)) == 0x200 && Word(Pow2(10)) == 0x400 && Word(Pow2(11)) == 0x800
    ensures Word(Pow2(12)) == 0x1000 && Word(Pow2(13)) == 0x2000 && Word(Pow2(14)) == 0x4000 && Word(Pow2(15)) == 0x8000
  {
    hide Word, Pow2;
    WordZero();
    WordUnfold(1);
    PowZero();
    NextBitWord(1); NextBitWord(2); NextBitWord(3); NextBitWord(4); NextBitWord(5); NextBitWord(6);
    NextBitWord(7); NextBitWord(8); NextBitWord(9); NextBitWord(10); NextBitWord(11); NextBitWord(12);
    NextBitWord(13); NextBitWord(14); NextBitWord(15);
  }

  // ---------- Numbers ----------

  predicate Odd(w: bv20) {
    w & 1 == 1
  }

  function Halved(w: bv20): bv20 {
    w >> 1
  }

  // The number in the k low bits of w.
  function Number(w: bv20, k: nat): nat
    decreases k
  {
    if k == 0 then 0 else 2 * Number(Halved(w), k - 1) + if Odd(w) then 1 else 0
  }

  lemma PushHalved(w: bv20, m: bv20)
    requires !Exceeds(w, Push(m, true)) && !Exceeds(m, 0x1FFFF)
    ensures Push(Halved(w), Odd(w)) == w && !Exceeds(Halved(w), m)
  {
  }

  lemma OnlyZero(w: bv20)
    requires !Exceeds(w, 0)
    ensures w == 0
  {
  }

  lemma {:induction false} NumberWord(w: bv20, k: nat)
    requires k <= 17 && !Exceeds(w, Mask(k))
    ensures Number(w, k) < Pow2(k) && Word(Number(w, k)) == w
    decreases k
  {
    hide *;
    Masks(k);
    NumberUnfold(w, k);
    if k == 0 {
      OnlyZero(w);
      WordZero();
      PowZero();
    } else {
      PowStep(k);
      MaskRoom(k - 1);
      PushHalved(w, Mask(k - 1));
      NumberWord(Halved(w), k - 1);
      WordUnfold(Number(w, k));
      Digit(Number(Halved(w), k - 1), Odd(w));
    }
  }

  lemma Digit(q: nat, bit: bool)
    ensures (2 * q + if bit then 1 else 0) / 2 == q
    ensures (2 * q + if bit then 1 else 0) % 2 == 1 <==> bit
  {
  }

  lemma NumberUnfold(w: bv20, k: nat)
    ensures Number(w, k) == if k == 0 then 0 else 2 * Number(Halved(w), k - 1) + if Odd(w) then 1 else 0
  {
  }
}
