// errorBitfield of leopard.go and errorBitfield8 of leopard8.go: which blocks of the final
// transform hold an erased position, one bit for each block and level.
module ErrorBits {

  import opened BitXor
  import opened Modular

  // ---------- Words of 64 bits, lowest first ----------

  type Word = w: seq<bool> | |w| == 64 witness seq(64, _ => false)

  function Zero(): Word {
    seq(64, _ => false)
  }

  function And(a: Word, b: Word): Word {
    seq(64, i requires 0 <= i < 64 => a[i] && b[i])
  }

  function Or(a: Word, b: Word): Word {
    seq(64, i requires 0 <= i < 64 => a[i] || b[i])
  }

  function ShiftRight(a: Word, s: nat): Word {
    seq(64, i requires 0 <= i < 64 => i + s < 64 && a[i + s])
  }

  function ShiftLeft(a: Word, s: nat): Word {
    seq(64, i requires 0 <= i < 64 => i >= s && a[i - s])
  }

  function OneBit(b: nat): Word {
    seq(64, i => i == b)
  }

  function HexBit(digit: char, b: nat): bool {
    var v := if '0' <= digit <= '9' then digit as int - '0' as int else digit as int - 'A' as int + 10;
    (match b case 0 => v case 1 => v / 2 case 2 => v / 4 case _ => v / 8) % 2 == 1
  }

  function FromHex(s: string): Word
    requires |s| == 16
  {
    seq(64, i requires 0 <= i < 64 && |s| == 16 => HexBit(s[15 - i / 4], i % 4))
  }

  // kHiMasks
  function HiMask(j: nat): Word
    requires j < 5
  {
    FromHex(match j
            case 0 => "AAAAAAAAAAAAAAAA"
            case 1 => "CCCCCCCCCCCCCCCC"
            case 2 => "F0F0F0F0F0F0F0F0"
            case 3 => "FF00FF00FF00FF00"
            case 4 => "FFFF0000FFFF0000")
  }

  lemma Digits(b: nat)
    requires b < 4
    ensures HexBit('A', b) <==> b % 2 == 1
    ensures HexBit('C', b) <==> b / 2 % 2 == 1
    ensures HexBit('F', b) && !HexBit('0', b)
  {
  }

  lemma HexDigitBit(s: string, b: nat)
    requires |s| == 16 && b < 64
    ensures FromHex(s)[b] == HexBit(s[15 - b / 4], b % 4)
  {
  }

  lemma SmallPowers()
    ensures Pow2(0) == 1 && Pow2(1) == 2 && Pow2(2) == 4 && Pow2(3) == 8 && Pow2(4) == 16 && Pow2(5) == 32
  {
  }

  lemma NarrowMasks(b: nat)
    requires b < 64
    ensures HiMask(0)[b] <==> b % 2 == 1
    ensures HiMask(1)[b] <==> b / 2 % 2 == 1
  {
    hide HexBit, FromHex;
    Digits(b % 4);
    HexDigitBit("AAAAAAAAAAAAAAAA", b);
    HexDigitBit("CCCCCCCCCCCCCCCC", b);
  }

  lemma WideDigits(d: nat)
    requires d < 16
    ensures "F0F0F0F0F0F0F0F0"[d] == if d % 2 == 0 then 'F' else '0'
    ensures "FF00FF00FF00FF00"[d] == if d / 2 % 2 == 0 then 'F' else '0'
    ensures "FFFF0000FFFF0000"[d] == if d / 4 % 2 == 0 then 'F' else '0'
  {
  }

  lemma FromTheTop(q: nat)
    requires q < 16
    ensures (15 - q) % 2 == 0 <==> q % 2 == 1
    ensures (15 - q) / 2 % 2 == 0 <==> q / 2 % 2 == 1
    ensures (15 - q) / 4 % 2 == 0 <==> q / 4 % 2 == 1
  {
  }

  lemma WideMasks(b: nat)
    requires b < 64
    ensures HiMask(2)[b] <==> b / 4 % 2 == 1
    ensures HiMask(3)[b] <==> b / 4 / 2 % 2 == 1
    ensures HiMask(4)[b] <==> b / 4 / 4 % 2 == 1
  {
    hide HexBit, FromHex;
    Digits(b % 4);
    HexDigitBit("F0F0F0F0F0F0F0F0", b);
    HexDigitBit("FF00FF00FF00FF00", b);
    HexDigitBit("FFFF0000FFFF0000", b);
    var q := b / 4;
    WideDigits(15 - q);
    FromTheTop(q);
  }

  // Bit b of mask j is set when b lies in the upper half of its block of 2^(j + 1) bits.
  lemma HiMaskBit(j: nat, b: nat)
    requires j < 5 && b < 64
    ensures HiMask(j)[b] <==> b / Pow2(j) % 2 == 1
  {
    hide HiMask, Pow2;
    SmallPowers();
    NarrowMasks(b);
    WideMasks(b);
    assert b / 4 / 2 == b / 8 && b / 4 / 4 == b / 16;
  }

  // ---------- Blocks that hold a marked position ----------

  // The block of 2^level positions that holds position i.
  function Block(i: nat, level: nat): nat {
    QuotientNat(i, Pow2(level));
    i / Pow2(level)
  }

  lemma QuotientNat(i: nat, d: nat)
    requires d > 0
    ensures i / d >= 0
  {
    if i / d <= -1 {
      MulMonotone(i / d, -1, d);
    }
  }

  ghost predicate Hit(marked: set<nat>, level: nat, block: nat) {
    exists i :: i in marked && Block(i, level) == block
  }

  lemma BlockHalves(i: nat, level: nat)
    ensures Block(i, level + 1) == Block(i, level) / 2 && Block(i, 0) == i
  {
    PowStep(level + 1);
    PowZero();
    hide Pow2;
    DivideTwice(i, Pow2(level));
  }

  lemma HitStep(marked: set<nat>, level: nat, block: nat)
    ensures Hit(marked, level + 1, block) <==> Hit(marked, level, 2 * block) || Hit(marked, level, 2 * block + 1)
  {
    hide Block;
    forall i | i in marked
      ensures Block(i, level + 1) == block <==> Block(i, level) == 2 * block || Block(i, level) == 2 * block + 1
    {
      BlockHalves(i, level);
    }
  }

  lemma DivideTwice(i: nat, d: nat)
    requires d > 0
    ensures i / (2 * d) == i / d / 2
  {
    var q := i / d / 2;
    assert i == d * (i / d) + i % d;
    assert i / d == 2 * q + i / d % 2;
    var rest := d * (i / d % 2) + i % d;
    assert i == (2 * d) * q + rest && 0 <= rest < 2 * d by {
      assert d * (2 * q + i / d % 2) == 2 * d * q + d * (i / d % 2);
    }
    QuotientIs(i, 2 * d, q, rest);
  }

  lemma QuotientIs(a: nat, d: nat, q: nat, r: nat)
    requires d > 0 && a == d * q + r && r < d
    ensures a / d == q
  {
    ModUnique(a, q, r, d);
  }

  // Bit b of word i of a tier of base level t answers for the block of 2^(t + k) positions
  // that holds unit 64 * i + b of that tier.
  ghost predicate Shows(w: Word, i: nat, t: nat, k: nat, marked: set<nat>) {
    forall b: nat | b < 64 :: w[b] <==> Hit(marked, t + k, Block(64 * i + b, k))
  }

  // ---------- One level up ----------

  // The bit as far into the other block of its pair of blocks of 2^k bits.
  function Sibling(b: nat, k: nat): (r: int) {
    if Block(b, k) % 2 == 1 then b - Pow2(k) else b + Pow2(k)
  }

  // hi2lo | lo2hi
  function Merged(w: Word, mask: Word, s: nat): Word {
    var hi2lo := Or(w, ShiftRight(And(w, mask), s));
    var lo2hi := ShiftLeft(And(w, ShiftRight(mask, s)), s);
    Or(hi2lo, lo2hi)
  }

  // w | (w >> 32) | (w << 32)
  function BothHalves(w: Word): Word {
    Or(Or(w, ShiftRight(w, 32)), ShiftLeft(w, 32))
  }

  ghost predicate JoinsSiblings(w: Word, w': Word, k: nat) {
    forall b: nat | b < 64 :: 0 <= Sibling(b, k) < 64 && (w'[b] <==> w[b] || w[Sibling(b, k)])
  }

  lemma {:induction false} BlockLow(i: nat, k: nat)
    requires k > 0
    ensures Block(i, k) == Block(i / 2, k - 1)
  {
    hide Block;
    BlockHalves(i, k - 1);
    if k > 1 {
      BlockHalves(i / 2, k - 2);
      BlockLow(i, k - 1);
    } else {
      BlockHalves(i / 2, 0);
    }
  }

  // Where word i of 2^n bits starts.
  function Base(i: nat, n: nat): nat {
    Pow2(n) * i
  }

  lemma EvenBase(i: nat, n: nat)
    requires n > 0
    ensures Base(i, n) == 2 * Base(i, n - 1)
  {
    PowStep(n);
  }

  lemma SiblingStep(b: nat, k: nat)
    requires k > 0
    ensures Sibling(b, k) == 2 * Sibling(b / 2, k - 1) + b % 2
  {
    BlockLow(b, k);
    PowStep(k);
    hide Block, Pow2;
  }

  lemma SiblingZero(b: nat)
    ensures Sibling(b, 0) == if b % 2 == 1 then b - 1 else b + 1
  {
    BlockHalves(b, 0);
    PowZero();
    hide Block, Pow2;
  }

  // In words of 2^n bits, both bits are in the same word and in neighbouring blocks.
  lemma {:induction false} SiblingFacts(i: nat, b: nat, k: nat, n: nat)
    requires k < n && b < Pow2(n)
    ensures 0 <= Sibling(b, k) < Pow2(n)
    ensures Block(Base(i, n) + b, k) / 2 == Block(Base(i, n) + Sibling(b, k), k) / 2
    ensures Block(Base(i, n) + b, k) != Block(Base(i, n) + Sibling(b, k), k)
    decreases k
  {
    hide Block, Pow2, Base, Sibling;
    EvenBase(i, n);
    PowStep(n);
    var c := Base(i, n) + b;
    if k == 0 {
      SiblingZero(b);
      BlockHalves(c, 0);
      BlockHalves(Base(i, n) + Sibling(b, 0), 0);
    } else {
      SiblingFacts(i, b / 2, k - 1, n - 1);
      SiblingStep(b, k);
      assert c / 2 == Base(i, n - 1) + b / 2;
      BlockLow(c, k);
      var c': nat := Base(i, n) + Sibling(b, k);
      assert c' / 2 == Base(i, n - 1) + Sibling(b / 2, k - 1);
      BlockLow(c', k);
    }
  }

  lemma WordBase(i: nat)
    ensures Pow2(6) == 64 && Base(i, 6) == 64 * i
  {
  }

  lemma MergedJoins(w: Word, j: nat)
    requires j < 5
    ensures JoinsSiblings(w, Merged(w, HiMask(j), Pow2(j)), j)
  {
    hide HiMask, Pow2, Merged, Sibling;
    WordBase(0);
    forall b: nat | b < 64
      ensures 0 <= Sibling(b, j) < 64 && (Merged(w, HiMask(j), Pow2(j))[b] <==> w[b] || w[Sibling(b, j)])
    {
      SiblingFacts(0, b, j, 6);
      MergedBit(w, j, b, Pow2(j));
    }
  }

  lemma MergedBit(w: Word, j: nat, b: nat, s: nat)
    requires j < 5 && b < 64 && s == Pow2(j) && 0 <= Sibling(b, j) < 64
    ensures Merged(w, HiMask(j), s)[b] <==> w[b] || w[Sibling(b, j)]
  {
    hide HiMask, Pow2;
    HiMaskBit(j, b);
    if b + s < 64 {
      HiMaskBit(j, b + s);
      NextBlock(b, s);
    }
  }

  lemma NextBlock(b: nat, s: nat)
    requires s > 0
    ensures (b + s) / s == b / s + 1
  {
    QuotientIs(b + s, s, b / s + 1, b % s);
  }

  lemma HalvesJoin(w: Word)
    ensures JoinsSiblings(w, BothHalves(w), 5)
  {
    SmallPowers();
  }

  // Joining siblings moves every answer one level up.
  lemma ShowsStep(w: Word, w': Word, i: nat, t: nat, k: nat, marked: set<nat>)
    requires k < 6 && JoinsSiblings(w, w', k) && Shows(w, i, t, k, marked)
    ensures Shows(w', i, t, k + 1, marked)
  {
    hide Pow2, Hit, Sibling, Block, Base;
    WordBase(i);
    forall b: nat | b < 64 ensures w'[b] <==> Hit(marked, t + k + 1, Block(64 * i + b, k + 1)) {
      SiblingFacts(i, b, k, 6);
      BlockHalves(64 * i + b, k);
      HitStep(marked, t + k, Block(64 * i + b, k + 1));
      assert w[Sibling(b, k)] <==> Hit(marked, t + k, Block(64 * i + Sibling(b, k), k));
    }
  }
}
