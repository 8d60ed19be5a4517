// The Leopard transform evaluates polynomials: with the right skew table, what is read from its
// rows are the values of the polynomial whose coefficients are read from the shards, over the
// field of either width.
module Evaluation {

  import opened BitXor
  import opened Modular
  import opened Shards
  import opened Transform
  import opened NovelBasis
  import opened Interpolation
  import opened SkewTable

  // ---------- Columns ----------

  // What is read from each shard.
  function Column<E>(w: seq<Shard>, read: Shard -> E): (r: seq<E>)
    ensures |r| == |w|
  {
    seq(|w|, i requires 0 <= i < |w| => read(w[i]))
  }

  lemma ColumnAt<E>(w: seq<Shard>, read: Shard -> E, i: nat)
    requires i < |w|
    ensures Column(w, read)[i] == read(w[i])
  {
  }

  lemma ColumnHalves<E>(w: seq<Shard>, read: Shard -> E, h: nat)
    requires h <= |w|
    ensures Column(w, read)[..h] == Column(w[..h], read) && Column(w, read)[h..] == Column(w[h..], read)
  {
  }

  // ---------- What is read of sums and products ----------

  ghost predicate SumReads<E(!new)>(n: Novel<E>, read: Shard -> E, size: nat, x: Shard, y: Shard) {
    |x| == |y| == size ==> read(Xor2(x, y)) == n.Add(read(x), read(y))
  }

  // The factor of the butterflies of block q of 2 * 2^b shards is the number 2 * q.
  ghost predicate TwiddleReads<E(!new)>(t: Leopard, n: Novel<E>, read: Shard -> E, size: nat, q: nat, b: nat,
                                        y: Shard)
  {
    2 * q < n.order && Place(q, b) < |t.skew| && |y| == size ==>
      && |t.Twiddle(Place(q, b), y)| == size
      && read(t.Twiddle(Place(q, b), y)) == n.Times(n.At(2 * q), read(y))
  }

  // From shards of this size, read takes elements of the field that the codec computes in.
  ghost predicate Reads<E(!new)>(t: Leopard, n: Novel<E>, read: Shard -> E, size: nat) {
    && n.Ready() && |t.skew| + 1 == n.order && read(Clear(size)) == n.zero
    && (forall x: Shard, y: Shard :: SumReads(n, read, size, x, y))
    && (forall q: nat, b: nat, y: Shard :: TwiddleReads(t, n, read, size, q, b, y))
  }

  lemma ReadsField<E(!new)>(t: Leopard, n: Novel<E>, read: Shard -> E, size: nat)
    requires Reads(t, n, read, size)
    ensures n.Ready() && |t.skew| + 1 == n.order && read(Clear(size)) == n.zero
  {
    hide Novel.Ready, SumReads, TwiddleReads;
  }

  lemma SumOf<E(!new)>(t: Leopard, n: Novel<E>, read: Shard -> E, size: nat, x: Shard, y: Shard)
    requires Reads(t, n, read, size) && |x| == |y| == size
    ensures read(Xor2(x, y)) == n.Add(read(x), read(y))
  {
    hide Novel.Ready, TwiddleReads, Xor2;
    assert SumReads(n, read, size, x, y);
  }

  lemma TwiddleOf<E(!new)>(t: Leopard, n: Novel<E>, read: Shard -> E, size: nat, q: nat, b: nat, y: Shard)
    requires Reads(t, n, read, size) && 2 * q < n.order && Place(q, b) < |t.skew| && |y| == size
    ensures |t.Twiddle(Place(q, b), y)| == size
    ensures read(t.Twiddle(Place(q, b), y)) == n.Times(n.At(2 * q), read(y))
  {
    hide Novel.Ready, SumReads, Leopard.Twiddle;
    assert TwiddleReads(t, n, read, size, q, b, y);
  }

  lemma LowColumn<E(!new)>(t: Leopard, n: Novel<E>, read: Shard -> E, size: nat, a: seq<Shard>, b: seq<Shard>, s: nat,
                           q: nat, e: nat)
    requires Reads(t, n, read, size) && 2 * q < n.order && s == Place(q, e) < |t.skew|
    requires |a| == |b| && Uniform(a, size) && Uniform(b, size)
    ensures Column(t.LowDown(a, b, s), read) == n.Sum(Column(a, read), n.Scaled(n.At(2 * q), Column(b, read)))
    ensures Column(t.HighDown(a, b, s), read) == n.Sum(Column(b, read), Column(t.LowDown(a, b, s), read))
  {
    hide Reads, Novel.Times, Novel.Add, Novel.At, Leopard.Twiddle, Place, Xor2;
    t.ButterfliesUniform(a, b, s, size);
    forall i | 0 <= i < |a|
      ensures Column(t.LowDown(a, b, s), read)[i]
           == n.Sum(Column(a, read), n.Scaled(n.At(2 * q), Column(b, read)))[i]
      ensures Column(t.HighDown(a, b, s), read)[i] == n.Sum(Column(b, read), Column(t.LowDown(a, b, s), read))[i]
    {
      assert |a[i]| == |b[i]| == |t.LowDown(a, b, s)[i]| == size;
      TwiddleOf(t, n, read, size, q, e, b[i]);
      SumOf(t, n, read, size, a[i], t.Twiddle(s, b[i]));
      SumOf(t, n, read, size, b[i], t.LowDown(a, b, s)[i]);
    }
  }

  // ---------- Blocks ----------

  lemma {:induction false} DropIsQuotient(x: nat, b: nat)
    ensures Drop(x, b) == x / Pow2(b)
  {
    hide Drop, Pow2;
    DropStep(x, b);
    if b > 0 {
      DropIsQuotient(x / 2, b - 1);
      PowStep(b);
      DoubleOver(x / 2, Pow2(b - 1));
      assert x == 2 * (x / 2) || x == 2 * (x / 2) + 1;
    } else {
      PowZero();
    }
  }

  // Numbers below 2^k are those whose higher bits are zero.
  lemma BelowPower(x: nat, k: nat)
    ensures Drop(x, k) == 0 <==> x < Pow2(k)
  {
    hide *;
    DropIsQuotient(x, k);
    ZeroQuotient(x, Pow2(k));
  }

  lemma ZeroQuotient(x: nat, p: nat)
    requires p > 0
    ensures x / p == 0 <==> x < p
  {
    var q, r := x / p, x % p;
    assert x == q * p + r;
    if x < p {
      ModUnique(x, 0, x, p);
    } else {
      assert q != 0;
    }
  }

  // Where block q of 2^k shards starts.
  function Start(q: nat, k: nat): nat {
    q * Pow2(k)
  }

  lemma StartZero(k: nat)
    ensures Start(0, k) == 0
  {
  }

  lemma BlockEnds(q: nat, k: nat)
    ensures Start(q + 1, k) == Start(q, k) + Pow2(k)
  {
  }

  lemma DropInBlock(q: nat, b: nat, i: nat)
    requires i < Pow2(b)
    ensures Drop(Start(q, b) + i, b) == q
  {
    hide Drop, Pow2;
    var h := Pow2(b);
    DropIsQuotient(q * h + i, b);
    ModUnique(q * h + i, q, i, h);
  }

  // Blocks that start below a number have smaller numbers.
  lemma StartBelow(q: nat, k: nat)
    ensures q <= Start(q, k)
  {
    MulMonotone(1, Pow2(k), q);
  }

  // Where the halves of a block start.
  lemma HalfBlocks(q: nat, k: nat, order: nat)
    requires k > 0 && Start(q + 1, k) <= order
    ensures Start(2 * q, k - 1) == Start(q, k) && Start(2 * q + 1, k - 1) == Start(q, k) + Pow2(k - 1)
    ensures 2 * q + 1 < order && Start(2 * q + 2, k - 1) == Start(q + 1, k)
    ensures Place(q, k - 1) == Start(q, k) + Pow2(k - 1) - 1 < order - 1
  {
    hide Pow2;
    PowStep(k);
    var h := Pow2(k - 1);
    assert q * (2 * h) == 2 * q * h && (q + 1) * (2 * h) == (2 * q + 2) * h;
    BlockEnds(2 * q, k - 1);
    BlockEnds(2 * q + 1, k - 1);
    StartBelow(2 * q + 2, k - 1);
  }

  // ---------- The transform evaluates ----------

  lemma ColumnOfOne<E(!new)>(t: Leopard, n: Novel<E>, read: Shard -> E, w: seq<Shard>, off: nat)
    requires |w| == 1 && off <= |t.skew|
    ensures 1 == Pow2(0) && t.Fft(w, 0, off) == w && read(w[0]) == n.Eval(Column(w, read), 0, off)
  {
    PowZero();
    t.TransformBase(w, off);
    n.EvalZero(Column(w, read), off);
  }

  // What the halves of a transform evaluate, put together.
  lemma Butterfly<E(!new)>(n: Novel<E>, ca: seq<E>, cb: seq<E>, k: nat, q: nat, x: nat)
    requires n.Ready() && |ca| == |cb| == Pow2(k) && q < n.order && q % 2 == 0
    ensures n.Eval(n.Sum(ca, n.Scaled(n.At(q), cb)), k, x)
         == n.Add(n.Eval(ca, k, x), n.Times(n.At(q), n.Eval(cb, k, x)))
    ensures n.Eval(n.Sum(cb, n.Sum(ca, n.Scaled(n.At(q), cb))), k, x)
         == n.Add(n.Eval(ca, k, x), n.Times(n.At(q + 1), n.Eval(cb, k, x)))
  {
    hide *;
    var low := n.Sum(ca, n.Scaled(n.At(q), cb));
    n.EvalSum(ca, n.Scaled(n.At(q), cb), k, x);
    n.EvalScaled(n.At(q), cb, k, x);
    n.EvalSum(cb, low, k, x);
    var a, b := n.Eval(ca, k, x), n.Eval(cb, k, x);
    NextOdd(n, q);
    n.Distributes(n.At(q), n.one, b);
    n.TimesLaws(b, b, b);
    n.AddSwap(b, a, n.Times(n.At(q), b));
  }

  // The value of the whole at a position of either half.
  lemma HalfOfValue<E(!new)>(n: Novel<E>, w: seq<E>, k: nat, q: nat, i: nat)
    requires n.Ready() && k > 0 && |w| == Pow2(k) == 2 * Pow2(k - 1) && i < |w| && Start(q + 1, k) <= n.order
    ensures var h := Pow2(k - 1);
      var low := n.Sum(w[..h], n.Scaled(n.At(2 * q), w[h..]));
      var x := Start(q, k) + i;
      n.Eval(w, k, x) == n.Eval(if i < h then low else n.Sum(w[h..], low), k - 1, x)
  {
    hide *;
    var h := Pow2(k - 1);
    HalfBlocks(q, k, n.order);
    var x := Start(q, k) + i;
    n.EvalHalves(w, k, x);
    Butterfly(n, w[..h], w[h..], k - 1, 2 * q, x);
    if i < h {
      DropInBlock(2 * q, k - 1, i);
    } else {
      DropInBlock(2 * q + 1, k - 1, i - h);
    }
  }

  // One level of the transform of block q of 2 * h shards.
  lemma SplitStep<E(!new)>(t: Leopard, n: Novel<E>, read: Shard -> E, size: nat, w: seq<Shard>, k: nat, q: nat, h: nat)
    requires Reads(t, n, read, size) && k > 0 && h == Pow2(k - 1) && |w| == Pow2(k) == 2 * h && Uniform(w, size)
    requires Start(q + 1, k) <= n.order
    ensures |t.skew| + 1 == n.order && Start(q, k) + 2 * h <= n.order
    ensures var off, s := Start(q, k), Start(q, k) + h - 1;
            && Uniform(t.LowDown(w[..h], w[h..], s), size) && Uniform(t.HighDown(w[..h], w[h..], s), size)
            && t.Fft(w, k, off) == t.Fft(t.LowDown(w[..h], w[h..], s), k - 1, off)
                                 + t.Fft(t.HighDown(w[..h], w[h..], s), k - 1, off + h)
            && var low := n.Sum(Column(w, read)[..h], n.Scaled(n.At(2 * q), Column(w, read)[h..]));
               && Column(t.LowDown(w[..h], w[h..], s), read) == low
               && Column(t.HighDown(w[..h], w[h..], s), read) == n.Sum(Column(w, read)[h..], low)
  {
    hide *;
    ReadsField(t, n, read, size);
    BlockEnds(q, k);
    HalfBlocks(q, k, n.order);
    var a, b, s := w[..h], w[h..], Start(q, k) + h - 1;
    UniformSplit(w, h, size);
    t.ButterfliesUniform(a, b, s, size);
    t.FftStep(w, k, Start(q, k), h);
    LowColumn(t, n, read, size, a, b, s, q, k - 1);
    ColumnHalves(w, read, h);
  }

  // Row i of the transform of block q holds the value at position i of the block.
  lemma {:induction false} FftEvaluates<E(!new)>(t: Leopard, n: Novel<E>, read: Shard -> E, size: nat, w: seq<Shard>,
                                                 k: nat, q: nat, i: nat)
    requires Reads(t, n, read, size) && |w| == Pow2(k) && Start(q + 1, k) <= n.order && Uniform(w, size) && i < |w|
    ensures |t.skew| + 1 == n.order && Start(q, k) + |w| <= n.order
    ensures |t.Fft(w, k, Start(q, k))[i]| == size
    ensures read(t.Fft(w, k, Start(q, k))[i]) == n.Eval(Column(w, read), k, Start(q, k) + i)
    decreases k
  {
    hide *;
    ReadsField(t, n, read, size);
    BlockEnds(q, k);
    var off := Start(q, k);
    t.FftUniform(w, k, off, size);
    UniformEach(t.Fft(w, k, off), size, i);
    if k == 0 {
      PowZero();
      ColumnOfOne(t, n, read, w, off);
    } else {
      var h := Pow2(k - 1);
      PowStep(k);
      HalfBlocks(q, k, n.order);
      SplitStep(t, n, read, size, w, k, q, h);
      HalfOfValue(n, Column(w, read), k, q, i);
      var a, b, s := w[..h], w[h..], off + h - 1;
      if i < h {
        FftEvaluates(t, n, read, size, t.LowDown(a, b, s), k - 1, 2 * q, i);
      } else {
        FftEvaluates(t, n, read, size, t.HighDown(a, b, s), k - 1, 2 * q + 1, i - h);
      }
    }
  }

  lemma UniformEach(w: seq<Shard>, size: nat, i: nat)
    requires Uniform(w, size) && i < |w|
    ensures |w[i]| == size
  {
  }

  // The coefficients that the inverse transform computes take the values that were transformed.
  lemma CoefficientsFit<E(!new)>(t: Leopard, n: Novel<E>, read: Shard -> E, size: nat, w: seq<Shard>, k: nat, x: nat)
    requires Reads(t, n, read, size) && |w| == Pow2(k) <= n.order && Uniform(w, size) && t.Linear() && x < |w|
    ensures |t.skew| + 1 == n.order && n.Eval(Column(t.Ifft(w, k, 0), read), k, x) == read(w[x])
  {
    hide *;
    ReadsField(t, n, read, size);
    t.LinearKeepsLength();
    t.FftIfft(w, k, 0, size);
    t.IfftUniform(w, k, 0, size);
    StartZero(k);
    BlockEnds(0, k);
    FftEvaluates(t, n, read, size, t.Ifft(w, k, 0), k, 0, x);
  }
}
