// Maps of field elements that commute with exclusive or, given by the images of the single bits.
module BitMaps {

  import opened BitXor
  import opened Words

  // The combination of the images from i on that the bits of x select.
  function Mix(images: seq<nat>, i: nat, x: nat): nat
    decreases |images| - i
  {
    if i >= |images| then 0 else Xor(if x % 2 == 1 then images[i] else 0, Mix(images, i + 1, x / 2))
  }

  lemma MixUnfold(images: seq<nat>, i: nat, x: nat)
    requires i < |images|
    ensures Mix(images, i, x) == Xor(if x % 2 == 1 then images[i] else 0, Mix(images, i + 1, x / 2))
  {
  }

  lemma {:induction false} MixLinear(images: seq<nat>, i: nat, x: nat, y: nat)
    ensures Mix(images, i, Xor(x, y)) == Xor(Mix(images, i, x), Mix(images, i, y))
    decreases |images| - i
  {
    if i >= |images| {
      XorZero(0);
    } else {
      XorStep(x, y);
      MixLinear(images, i + 1, x / 2, y / 2);
      var b := images[i];
      hide Xor;
      XorExchange(if x % 2 == 1 then b else 0, Mix(images, i + 1, x / 2), if y % 2 == 1 then b else 0,
                  Mix(images, i + 1, y / 2));
      XorSelf(b);
      XorZero(b);
      XorZero(0);
    }
  }

  lemma {:induction false} MixZero(images: seq<nat>, i: nat)
    ensures Mix(images, i, 0) == 0
    decreases |images| - i
  {
    if i < |images| {
      MixZero(images, i + 1);
    }
  }

  lemma {:induction false} MixBound(images: seq<nat>, i: nat, x: nat, k: nat)
    requires forall j | 0 <= j < |images| :: images[j] < Pow2(k)
    ensures Mix(images, i, x) < Pow2(k)
    decreases |images| - i
  {
    hide Xor;
    if i < |images| {
      MixBound(images, i + 1, x / 2, k);
      XorBound(if x % 2 == 1 then images[i] else 0, Mix(images, i + 1, x / 2), k);
    }
  }

  // A single bit selects its image.
  lemma {:induction false} MixOfBit(images: seq<nat>, i: nat, j: nat)
    requires i + j < |images|
    ensures Mix(images, i, Pow2(j)) == images[i + j]
    decreases j
  {
    hide Xor, Mix, Pow2;
    MixUnfold(images, i, Pow2(j));
    if j == 0 {
      PowZero();
      MixZero(images, i + 1);
      XorZero(images[i]);
    } else {
      PowStep(j);
      MixOfBit(images, i + 1, j - 1);
      XorZero(images[i + j]);
    }
  }

  // ---------- Linear functions ----------

  ghost predicate Linear(f: nat -> nat, k: nat) {
    forall a: nat, b: nat {:trigger f(Xor(a, b))} | a < Pow2(k) && b < Pow2(k) :: f(Xor(a, b)) == Xor(f(a), f(b))
  }

  // Linear functions that agree on the single bits agree everywhere.
  lemma {:induction false} Extends(f: nat -> nat, g: nat -> nat, room: nat, k: nat, a: nat)
    requires Linear(f, room) && Linear(g, room) && a < Pow2(k) <= Pow2(room)
    requires forall i | 0 <= i < k :: f(Pow2(i)) == g(Pow2(i))
    ensures f(a) == g(a)
    decreases k
  {
    hide Xor, Pow2;
    if k == 0 {
      PowZero();
      XorSelf(0);
      XorSelf(f(0));
      XorSelf(g(0));
      assert f(Xor(0, 0)) == Xor(f(0), f(0)) && g(Xor(0, 0)) == Xor(g(0), g(0));
    } else {
      PowStep(k);
      var top := Pow2(k - 1);
      if a < top {
        Extends(f, g, room, k - 1, a);
      } else {
        Extends(f, g, room, k - 1, a - top);
        XorPow2(a - top, k - 1);
        assert f(Xor(top, a - top)) == Xor(f(top), f(a - top));
        assert g(Xor(top, a - top)) == Xor(g(top), g(a - top));
      }
    }
  }

  // ---------- On words ----------

  // The images from i on that the n low bits of w select.
  function MixWord(words: seq<bv20>, i: nat, n: nat, w: bv20): bv20
    requires i + n <= |words|
    decreases n
  {
    if n == 0 then 0 else Plus(if Odd(w) then words[i] else 0, MixWord(words, i + 1, n - 1, Halved(w)))
  }

  lemma MixWordUnfold(words: seq<bv20>, i: nat, n: nat, w: bv20)
    requires i + n <= |words|
    ensures MixWord(words, i, n, w)
         == if n == 0 then 0 else Plus(if Odd(w) then words[i] else 0, MixWord(words, i + 1, n - 1, Halved(w)))
  {
  }

  function Numbers(words: seq<bv20>, k: nat): (r: seq<nat>)
    ensures |r| == |words|
  {
    seq(|words|, i requires 0 <= i < |words| => Number(words[i], k))
  }

  ghost predicate Narrower(words: seq<bv20>, k: nat) {
    forall i | 0 <= i < |words| :: !Exceeds(words[i], Mask(k))
  }

  lemma {:induction false} MixIsWord(words: seq<bv20>, k: nat, i: nat, n: nat, x: nat)
    requires i + n <= |words| && k <= 17 && Narrower(words, k) && n <= 17 && x < Pow2(n)
    ensures Word(Mix(Numbers(words, k), i, x)) == MixWord(words, i, n, Word(x))
    decreases n
  {
    hide Mix, MixWord, Mask, Pow2, Word, Plus, Odd, Halved, Exceeds, Number;
    var images := Numbers(words, k);
    MixWordUnfold(words, i, n, Word(x));
    if n == 0 {
      PowZero();
      MixZero(images, i);
      WordZero();
    } else {
      PowStep(n);
      MixUnfold(images, i, x);
      MixIsWord(words, k, i + 1, n - 1, x / 2);
      WordHalves(x, n);
      NumberWord(words[i], k);
      WordZero();
      WordXor(if x % 2 == 1 then images[i] else 0, Mix(images, i + 1, x / 2));
    }
  }

  lemma WordHalves(x: nat, n: nat)
    requires 0 < n <= 17 && x < Pow2(n)
    ensures Halved(Word(x)) == Word(x / 2) && (Odd(Word(x)) <==> x % 2 == 1)
  {
    hide *;
    PowStep(n);
    WordUnfold(x);
    WordBelow(x / 2, n - 1);
    PushBack(Word(x / 2), x % 2 == 1);
  }

  lemma PushBack(w: bv20, bit: bool)
    requires !Exceeds(w, 0x1FFFF)
    ensures Halved(Push(w, bit)) == w && (Odd(Push(w, bit)) <==> bit)
  {
  }

  // ---------- Maps of 8 and of 16 bits ----------

  function Shifted(w: bv20): bv20 {
    w >> 8
  }

  function Drop(w: bv20, n: nat): bv20
    decreases n
  {
    if n == 0 then w else Drop(Halved(w), n - 1)
  }

  lemma DropEight(w: bv20)
    ensures Drop(w, 8) == Shifted(w)
  {
  }

  lemma DropUnfold(w: bv20, n: nat)
    ensures Drop(w, n) == if n == 0 then w else Drop(Halved(w), n - 1)
  {
  }

  // The low images and the high ones can be combined apart.
  lemma {:induction false} MixWordSplit(low: seq<bv20>, high: seq<bv20>, i: nat, n: nat, w: bv20)
    requires i + n == |low|
    ensures MixWord(low + high, i, n + |high|, w)
         == Plus(MixWord(low, i, n, w), MixWord(high, 0, |high|, Drop(w, n)))
    decreases n
  {
    hide MixWord, Plus, Odd, Halved, Drop;
    MixWordUnfold(low, i, n, w);
    DropUnfold(w, n);
    if n == 0 {
      MixWordShift(low, high, 0, |high|, w);
      PlusLaws(MixWord(high, 0, |high|, w), 0);
    } else {
      MixWordUnfold(low + high, i, n + |high|, w);
      MixWordSplit(low, high, i + 1, n - 1, Halved(w));
      PlusAssociates(if Odd(w) then low[i] else 0, MixWord(low, i + 1, n - 1, Halved(w)),
                     MixWord(high, 0, |high|, Drop(w, n)));
    }
  }

  lemma {:induction false} MixWordShift(low: seq<bv20>, high: seq<bv20>, i: nat, n: nat, w: bv20)
    requires i + n <= |high|
    ensures MixWord(low + high, |low| + i, n, w) == MixWord(high, i, n, w)
    decreases n
  {
    hide MixWord, Plus, Odd, Halved;
    MixWordUnfold(low + high, |low| + i, n, w);
    MixWordUnfold(high, i, n, w);
    if n != 0 {
      MixWordShift(low, high, i + 1, n - 1, Halved(w));
    }
  }

  // The combination of the eight words that the low bits of w select.
  function Pick(w: bv20, c0: bv20, c1: bv20, c2: bv20, c3: bv20, c4: bv20, c5: bv20, c6: bv20, c7: bv20): bv20 {
    Plus(if w & 0x01 == 0 then 0 else c0, Plus(if w & 0x02 == 0 then 0 else c1,
      Plus(if w & 0x04 == 0 then 0 else c2, Plus(if w & 0x08 == 0 then 0 else c3,
        Plus(if w & 0x10 == 0 then 0 else c4, Plus(if w & 0x20 == 0 then 0 else c5,
          Plus(if w & 0x40 == 0 then 0 else c6, Plus(if w & 0x80 == 0 then 0 else c7, 0))))))))
  }

  datatype Eight = Eight(c0: bv20, c1: bv20, c2: bv20, c3: bv20, c4: bv20, c5: bv20, c6: bv20, c7: bv20) {

    function Words(): (r: seq<bv20>)
      ensures |r| == 8
    {
      [c0, c1, c2, c3, c4, c5, c6, c7]
    }

    function Mix(w: bv20): bv20 {
      Pick(w, c0, c1, c2, c3, c4, c5, c6, c7)
    }

    lemma IsMixWord(w: bv20)
      ensures Mix(w) == MixWord(Words(), 0, 8, w)
    {
      hide MixWord, Plus, Odd, Halved;
      LowBits(w);
      HighBits(w);
      var w4 := Halved(Halved(Halved(Halved(w))));
      MixWordUnfold(Words(), 0, 8, w);
      MixWordUnfold(Words(), 1, 7, Halved(w));
      MixWordUnfold(Words(), 2, 6, Halved(Halved(w)));
      MixWordUnfold(Words(), 3, 5, Halved(Halved(Halved(w))));
      MixWordUnfold(Words(), 4, 4, w4);
      MixWordUnfold(Words(), 5, 3, Halved(w4));
      MixWordUnfold(Words(), 6, 2, Halved(Halved(w4)));
      MixWordUnfold(Words(), 7, 1, Halved(Halved(Halved(w4))));
      MixWordUnfold(Words(), 8, 0, Halved(Halved(Halved(Halved(w4)))));
    }
  }

  lemma LowBits(w: bv20)
    ensures Odd(w) <==> w & 0x01 != 0
    ensures Odd(Halved(w)) <==> w & 0x02 != 0
    ensures Odd(Halved(Halved(w))) <==> w & 0x04 != 0
    ensures Odd(Halved(Halved(Halved(w)))) <==> w & 0x08 != 0
  {
  }

  lemma HighBits(w: bv20)
    ensures Odd(Halved(Halved(Halved(Halved(w))))) <==> w & 0x10 != 0
    ensures Odd(Halved(Halved(Halved(Halved(Halved(w)))))) <==> w & 0x20 != 0
    ensures Odd(Halved(Halved(Halved(Halved(Halved(Halved(w))))))) <==> w & 0x40 != 0
    ensures Odd(Halved(Halved(Halved(Halved(Halved(Halved(Halved(w)))))))) <==> w & 0x80 != 0
  {
  }

  datatype BitMap = Narrow(low: Eight) | Wide(low: Eight, high: Eight) {

    function Width(): nat {
      if Narrow? then 8 else 16
    }

    function Words(): (r: seq<bv20>)
      ensures |r| == Width()
    {
      if Narrow? then low.Words() else low.Words() + high.Words()
    }

    ghost predicate Valid() {
      Narrower(Words(), Width())
    }

    function Apply(x: nat): nat {
      Mix(Numbers(Words(), Width()), 0, x)
    }

    function ApplyWord(w: bv20): bv20 {
      if Narrow? then low.Mix(w) else Plus(low.Mix(w), high.Mix(Shifted(w)))
    }

    lemma Bound(x: nat)
      requires Valid()
      ensures Apply(x) < Pow2(Width())
    {
      hide Pow2, Mask, Exceeds, Number, Mix;
      var images := Numbers(Words(), Width());
      forall j | 0 <= j < |images| ensures images[j] < Pow2(Width()) {
        NumberWord(Words()[j], Width());
      }
      MixBound(images, 0, x, Width());
    }

    lemma IsWord(x: nat)
      requires Valid() && x < Pow2(Width())
      ensures Word(Apply(x)) == ApplyWord(Word(x))
    {
      hide Pow2, Mask, Exceeds, Number, Mix, MixWord, Word, Plus, Odd, Halved, Narrower;
      hide Eight.Mix, Eight.Words;
      MixIsWord(Words(), Width(), 0, Width(), x);
      low.IsMixWord(Word(x));
      if Wide? {
        MixWordSplit(low.Words(), high.Words(), 0, 8, Word(x));
        DropEight(Word(x));
        high.IsMixWord(Shifted(Word(x)));
      }
    }

    lemma IsLinear(x: nat, y: nat)
      ensures Apply(Xor(x, y)) == Xor(Apply(x), Apply(y))
      ensures Apply(0) == 0
    {
      hide Mix, Xor, Numbers, Words;
      MixLinear(Numbers(Words(), Width()), 0, x, y);
      MixZero(Numbers(Words(), Width()), 0);
    }
  }

  // ---------- Inverse maps ----------

  lemma ImageOfBit(m: BitMap, i: nat)
    requires m.Valid() && i < m.Width()
    ensures m.Apply(Pow2(i)) < Pow2(m.Width()) && Word(m.Apply(Pow2(i))) == m.Words()[i]
  {
    hide Mix, Pow2, Word, Number, Exceeds, Mask;
    MixOfBit(Numbers(m.Words(), m.Width()), 0, i);
    NumberWord(m.Words()[i], m.Width());
  }

  ghost function Composed(p: BitMap, q: BitMap): nat -> nat {
    (x: nat) => q.Apply(p.Apply(x))
  }

  ghost function Unchanged(): nat -> nat {
    (x: nat) => x
  }

  lemma ComposedLinear(p: BitMap, q: BitMap, k: nat)
    ensures Linear(Composed(p, q), k) && Linear(Unchanged(), k)
  {
    hide BitMap.Apply, Pow2, Xor;
    forall x: nat, y: nat | x < Pow2(k) && y < Pow2(k)
      ensures Composed(p, q)(Xor(x, y)) == Xor(Composed(p, q)(x), Composed(p, q)(y))
    {
      p.IsLinear(x, y);
      q.IsLinear(p.Apply(x), p.Apply(y));
    }
  }

  // q takes the images of p back to the single bits.
  ghost predicate Undoes(p: BitMap, q: BitMap) {
    && p.Valid() && q.Valid() && p.Width() == q.Width()
    && forall i | 0 <= i < p.Width() :: q.ApplyWord(p.Words()[i]) == Word(Pow2(i))
  }

  lemma Undone(p: BitMap, q: BitMap, x: nat)
    requires Undoes(p, q) && x < Pow2(p.Width())
    ensures q.Apply(p.Apply(x)) == x
  {
    hide BitMap.Apply, BitMap.ApplyWord, BitMap.Words, Pow2, Linear, Word, Narrower;
    var k := p.Width();
    ComposedLinear(p, q, k);
    forall i | 0 <= i < k ensures Composed(p, q)(Pow2(i)) == Unchanged()(Pow2(i)) {
      var image := p.Apply(Pow2(i));
      ImageOfBit(p, i);
      q.IsWord(image);
      q.Bound(image);
      PowRises(i, k);
      SameWord(q.Apply(image), Pow2(i), k);
    }
    Extends(Composed(p, q), Unchanged(), k, k, x);
  }
}
