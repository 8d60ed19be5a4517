// The parity of the Leopard codec is linear in the data, and each stretch of columns of the
// parity depends on the same stretch of the data alone.
module ParityLaws {

  import opened BitXor
  import opened Shards
  import opened Transform
  import opened LeopardEncode

  // ---------- Linearity ----------

  lemma XorRowsExchange(a: seq<Shard>, b: seq<Shard>, c: seq<Shard>, d: seq<Shard>, size: nat)
    requires |a| == |b| == |c| == |d|
    requires Uniform(a, size) && Uniform(b, size) && Uniform(c, size) && Uniform(d, size)
    ensures XorRows(XorRows(a, b), XorRows(c, d)) == XorRows(XorRows(a, c), XorRows(b, d))
  {
    hide Xor2;
    forall i | 0 <= i < |a|
      ensures XorRows(XorRows(a, b), XorRows(c, d))[i] == XorRows(XorRows(a, c), XorRows(b, d))[i]
    {
      Xor2Exchange(a[i], b[i], c[i], d[i]);
    }
  }

  lemma PaddedLinear(u: seq<Shard>, v: seq<Shard>, k: nat, m: nat, size: nat)
    requires |u| == |v| && k <= m && k <= |u|
    ensures Padded(XorRows(u, v), k, m, size) == XorRows(Padded(u, k, m, size), Padded(v, k, m, size))
    ensures XorRows(u, v)[k..] == XorRows(u[k..], v[k..])
  {
    hide Xor2;
    Xor2Laws(Clear(size), Clear(size), Clear(size));
  }

  // One chunk of a sum is the sum of the chunks.
  lemma ChunkLinear(t: Leopard, u: seq<Shard>, v: seq<Shard>, k: nat, m: nat, n: nat, off: nat, size: nat)
    requires |u| == |v| && k <= m == Pow2(n) && k <= |u| && off + m <= |t.skew| + 1 && t.Linear()
    requires Uniform(u, size) && Uniform(v, size)
    ensures t.Ifft(Padded(XorRows(u, v), k, m, size), n, off)
         == XorRows(t.Ifft(Padded(u, k, m, size), n, off), t.Ifft(Padded(v, k, m, size), n, off))
  {
    hide *;
    PaddedLinear(u, v, k, m, size);
    PaddedUniform(u, k, m, size);
    PaddedUniform(v, k, m, size);
    t.IfftLinear(Padded(u, k, m, size), Padded(v, k, m, size), n, off, size);
  }

  lemma {:induction false} FoldLinear(t: Leopard, a: seq<Shard>, b: seq<Shard>, u: seq<Shard>, v: seq<Shard>,
                                      n: nat, off: nat, size: nat)
    requires |a| == |b| == Pow2(n) && |u| == |v| && Fits(off, |u|, Pow2(n), |t.skew| + 1) && t.Linear()
    requires Uniform(a, size) && Uniform(b, size) && Uniform(u, size) && Uniform(v, size)
    ensures Fold(t, XorRows(a, b), XorRows(u, v), n, off, size)
         == XorRows(Fold(t, a, u, n, off, size), Fold(t, b, v, n, off, size))
    decreases |u|
  {
    hide *;
    var m := Pow2(n);
    if u == [] {
      assert u == v == XorRows(u, v);
      FoldEnd(t, a, n, off, size);
      FoldEnd(t, b, n, off, size);
      FoldEnd(t, XorRows(a, b), n, off, size);
    } else {
      var k := Min(m, |u|);
      MinBound(m, |u|);
      FoldStep(t, a, u, n, off, size, m, k);
      FoldStep(t, b, v, n, off, size, m, k);
      FoldStep(t, XorRows(a, b), XorRows(u, v), n, off, size, m, k);
      var s := SkewStart(off, m);
      ChunkLinear(t, u, v, k, m, n, s, size);
      IfftRowsUniform(t, u, k, m, n, s, size);
      IfftRowsUniform(t, v, k, m, n, s, size);
      var x, y := t.Ifft(Padded(u, k, m, size), n, s), t.Ifft(Padded(v, k, m, size), n, s);
      XorRowsExchange(a, b, x, y, size);
      XorRowsUniform(a, x, size);
      XorRowsUniform(b, y, size);
      PaddedLinear(u, v, k, m, size);
      FoldLinear(t, XorRows(a, x), XorRows(b, y), u[k..], v[k..], n, off + m, size);
    }
  }

  lemma MinBound(a: nat, b: nat)
    ensures Min(a, b) <= a && Min(a, b) <= b && (a > 0 && b > 0 ==> Min(a, b) > 0)
  {
  }

  lemma {:induction false} FoldUniform(t: Leopard, a: seq<Shard>, u: seq<Shard>, n: nat, off: nat, size: nat)
    requires |a| == Pow2(n) && Fits(off, |u|, Pow2(n), |t.skew| + 1) && Uniform(a, size) && Uniform(u, size)
    ensures Uniform(Fold(t, a, u, n, off, size), size)
    decreases |u|
  {
    hide *;
    var m := Pow2(n);
    if u == [] {
      FoldEnd(t, a, n, off, size);
    } else {
      var k := Min(m, |u|);
      MinBound(m, |u|);
      FoldStep(t, a, u, n, off, size, m, k);
      IfftRowsUniform(t, u, k, m, n, SkewStart(off, m), size);
      var x := t.Ifft(Padded(u, k, m, size), n, SkewStart(off, m));
      XorRowsUniform(a, x, size);
      FoldUniform(t, XorRows(a, x), u[k..], n, off + m, size);
    }
  }

  lemma ParityOfSummed(t: Leopard, data: seq<Shard>, n: nat, p: nat, size: nat)
    requires data != [] && p <= Pow2(n) && Fits(Pow2(n), |data|, Pow2(n), |t.skew| + 1)
    ensures Pow2(n) <= |t.skew| + 1
    ensures Parity(t, data, n, p, size) == t.Fft(Summed(t, data, n, size), n, 0)[..p]
  {
    hide Fold, Leopard.Fft, Leopard.Ifft, Padded, Pow2;
  }

  // The parity of a sum is the sum of the parities.
  lemma ParityLinear(t: Leopard, u: seq<Shard>, v: seq<Shard>, n: nat, p: nat, size: nat)
    requires u != [] && |u| == |v| && p <= Pow2(n) && Fits(Pow2(n), |u|, Pow2(n), |t.skew| + 1)
    requires t.Linear() && Uniform(u, size) && Uniform(v, size)
    ensures Parity(t, XorRows(u, v), n, p, size) == XorRows(Parity(t, u, n, p, size), Parity(t, v, n, p, size))
  {
    hide *;
    var x, y := Summed(t, u, n, size), Summed(t, v, n, size);
    SummedLinear(t, u, v, n, size);
    SummedUniform(t, u, n, size);
    SummedUniform(t, v, n, size);
    ParityOfSummed(t, u, n, p, size);
    ParityOfSummed(t, v, n, p, size);
    ParityOfSummed(t, XorRows(u, v), n, p, size);
    t.FftLinear(x, y, n, 0, size);
    XorRowsSplit(t.Fft(x, n, 0), t.Fft(y, n, 0), p);
  }

  lemma SummedLinear(t: Leopard, u: seq<Shard>, v: seq<Shard>, n: nat, size: nat)
    requires u != [] && |u| == |v| && Fits(Pow2(n), |u|, Pow2(n), |t.skew| + 1)
    requires t.Linear() && Uniform(u, size) && Uniform(v, size)
    ensures Summed(t, XorRows(u, v), n, size) == XorRows(Summed(t, u, n, size), Summed(t, v, n, size))
  {
    hide Fold, Leopard.Ifft, Leopard.Linear, Padded, Pow2, XorRows, Uniform, Fits;
    var m := Pow2(n);
    var k := Min(m, |u|);
    FitsStart(m, |u|, m, |t.skew| + 1);
    var s := SkewStart(m, m);
    ChunkLinear(t, u, v, k, m, n, s, size);
    PaddedLinear(u, v, k, m, size);
    IfftRowsUniform(t, u, k, m, n, SkewStart(m, m), size);
    IfftRowsUniform(t, v, k, m, n, SkewStart(m, m), size);
    FoldLinear(t, t.Ifft(Padded(u, k, m, size), n, s), t.Ifft(Padded(v, k, m, size), n, s), u[k..], v[k..], n, 2 * m,
               size);
  }

  lemma SummedUniform(t: Leopard, u: seq<Shard>, n: nat, size: nat)
    requires u != [] && Fits(Pow2(n), |u|, Pow2(n), |t.skew| + 1) && Uniform(u, size)
    ensures Uniform(Summed(t, u, n, size), size)
  {
    hide Fold, Leopard.Ifft, Padded, Pow2, Uniform, Fits;
    var m := Pow2(n);
    var k := Min(m, |u|);
    FitsStart(m, |u|, m, |t.skew| + 1);
    IfftRowsUniform(t, u, k, m, n, SkewStart(m, m), size);
    FoldUniform(t, t.Ifft(Padded(u, k, m, size), n, SkewStart(m, m)), u[k..], n, 2 * m, size);
  }

  // ---------- Stretches of columns ----------

  // Columns lo to hi of every shard.
  function Cut(w: seq<Shard>, lo: nat, hi: nat): (r: seq<Shard>)
    requires lo <= hi && forall i | 0 <= i < |w| :: hi <= |w[i]|
    ensures |r| == |w|
  {
    seq(|w|, i requires 0 <= i < |w| && lo <= hi <= |w[i]| => w[i][lo..hi])
  }

  // Products work on stretches of 64 bytes.
  ghost predicate Columnwise(t: Leopard) {
    forall log: nat, y: Shard, lo: nat, hi: nat
      | lo <= hi <= |y| && lo % 64 == 0 && hi % 64 == 0 && hi <= |t.mul(log, y)| ::
      t.mul(log, y[lo..hi]) == t.mul(log, y)[lo..hi]
  }

  lemma CutUniform(w: seq<Shard>, lo: nat, hi: nat, size: nat)
    requires lo <= hi <= size && Uniform(w, size)
    ensures Uniform(Cut(w, lo, hi), hi - lo)
  {
  }

  lemma Xor2Cut(a: Shard, b: Shard, lo: nat, hi: nat)
    requires |a| == |b| && lo <= hi <= |a|
    ensures Xor2(a[lo..hi], b[lo..hi]) == Xor2(a, b)[lo..hi]
  {
    hide Galois.GalAdd;
  }

  lemma TwiddleCut(t: Leopard, s: nat, y: Shard, lo: nat, hi: nat)
    requires s < |t.skew| && t.KeepsLength() && Columnwise(t) && lo <= hi <= |y| && lo % 64 == 0 && hi % 64 == 0
    ensures t.Twiddle(s, y[lo..hi]) == t.Twiddle(s, y)[lo..hi]
  {
    if t.skew[s] != t.modulus {
      assert |t.mul(t.skew[s], y)| == |y|;
    }
  }

  lemma ButterfliesCut(t: Leopard, a: seq<Shard>, b: seq<Shard>, s: nat, lo: nat, hi: nat, size: nat)
    requires |a| == |b| && s < |t.skew| && t.KeepsLength() && Columnwise(t)
    requires lo <= hi <= size && lo % 64 == 0 && hi % 64 == 0 && Uniform(a, size) && Uniform(b, size)
    ensures Uniform(t.LowDown(a, b, s), size) && Uniform(t.HighDown(a, b, s), size)
    ensures Uniform(t.LowUp(a, b, s), size) && Uniform(t.HighUp(a, b), size)
    ensures t.LowDown(Cut(a, lo, hi), Cut(b, lo, hi), s) == Cut(t.LowDown(a, b, s), lo, hi)
    ensures t.HighDown(Cut(a, lo, hi), Cut(b, lo, hi), s) == Cut(t.HighDown(a, b, s), lo, hi)
    ensures t.HighUp(Cut(a, lo, hi), Cut(b, lo, hi)) == Cut(t.HighUp(a, b), lo, hi)
    ensures t.LowUp(Cut(a, lo, hi), Cut(b, lo, hi), s) == Cut(t.LowUp(a, b, s), lo, hi)
  {
    hide Xor2, Columnwise, Leopard.Twiddle, Leopard.KeepsLength;
    t.ButterfliesUniform(a, b, s, size);
    var c, d := Cut(a, lo, hi), Cut(b, lo, hi);
    forall i | 0 <= i < |a|
      ensures t.LowDown(c, d, s)[i] == Cut(t.LowDown(a, b, s), lo, hi)[i]
      ensures t.HighDown(c, d, s)[i] == Cut(t.HighDown(a, b, s), lo, hi)[i]
      ensures t.HighUp(c, d)[i] == Cut(t.HighUp(a, b), lo, hi)[i]
      ensures t.LowUp(c, d, s)[i] == Cut(t.LowUp(a, b, s), lo, hi)[i]
    {
      assert |a[i]| == |b[i]| == size;
      TwiddleLength(t, s, b[i]);
      TwiddleCut(t, s, b[i], lo, hi);
      Xor2Cut(a[i], t.Twiddle(s, b[i]), lo, hi);
      Xor2Cut(b[i], t.LowDown(a, b, s)[i], lo, hi);
      Xor2Cut(b[i], a[i], lo, hi);
      TwiddleLength(t, s, t.HighUp(a, b)[i]);
      TwiddleCut(t, s, t.HighUp(a, b)[i], lo, hi);
      Xor2Cut(a[i], t.Twiddle(s, t.HighUp(a, b)[i]), lo, hi);
    }
  }

  lemma TwiddleLength(t: Leopard, s: nat, y: Shard)
    requires s < |t.skew| && t.KeepsLength()
    ensures |t.Twiddle(s, y)| == |y|
  {
  }

  lemma CutSplit(w: seq<Shard>, h: nat, lo: nat, hi: nat, size: nat)
    requires lo <= hi <= size && h <= |w| && Uniform(w, size)
    ensures Uniform(w[..h], size) && Uniform(w[h..], size)
    ensures Cut(w, lo, hi)[..h] == Cut(w[..h], lo, hi) && Cut(w, lo, hi)[h..] == Cut(w[h..], lo, hi)
  {
  }

  lemma CutJoin(u: seq<Shard>, v: seq<Shard>, lo: nat, hi: nat, size: nat)
    requires lo <= hi <= size && Uniform(u, size) && Uniform(v, size)
    ensures Uniform(u + v, size) && Cut(u + v, lo, hi) == Cut(u, lo, hi) + Cut(v, lo, hi)
  {
  }

  lemma {:induction false} FftCut(t: Leopard, w: seq<Shard>, k: nat, off: nat, lo: nat, hi: nat, size: nat)
    requires |w| == Pow2(k) && off + |w| <= |t.skew| + 1 && Uniform(w, size) && t.KeepsLength() && Columnwise(t)
    requires lo <= hi <= size && lo % 64 == 0 && hi % 64 == 0
    ensures Uniform(t.Fft(w, k, off), size)
    ensures t.Fft(Cut(w, lo, hi), k, off) == Cut(t.Fft(w, k, off), lo, hi)
    decreases k
  {
    hide *;
    t.FftUniform(w, k, off, size);
    UniformHas(t.Fft(w, k, off), size);
    UniformHas(w, size);
    if k == 0 {
      PowZero();
      t.TransformBase(w, off);
      t.TransformBase(Cut(w, lo, hi), off);
    } else {
      var h := Pow2(k - 1);
      PowStep(k);
      t.FftStep(w, k, off, h);
      t.FftStep(Cut(w, lo, hi), k, off, h);
      var a, b, s := w[..h], w[h..], off + h - 1;
      CutSplit(w, h, lo, hi, size);
      ButterfliesCut(t, a, b, s, lo, hi, size);
      FftCut(t, t.LowDown(a, b, s), k - 1, off, lo, hi, size);
      FftCut(t, t.HighDown(a, b, s), k - 1, off + h, lo, hi, size);
      CutJoin(t.Fft(t.LowDown(a, b, s), k - 1, off), t.Fft(t.HighDown(a, b, s), k - 1, off + h), lo, hi, size);
    }
  }

  lemma UniformHas(w: seq<Shard>, size: nat)
    requires Uniform(w, size)
    ensures forall i | 0 <= i < |w| :: |w[i]| == size
  {
  }

  lemma {:induction false} IfftCut(t: Leopard, w: seq<Shard>, k: nat, off: nat, lo: nat, hi: nat, size: nat)
    requires |w| == Pow2(k) && off + |w| <= |t.skew| + 1 && Uniform(w, size) && t.KeepsLength() && Columnwise(t)
    requires lo <= hi <= size && lo % 64 == 0 && hi % 64 == 0
    ensures Uniform(t.Ifft(w, k, off), size)
    ensures t.Ifft(Cut(w, lo, hi), k, off) == Cut(t.Ifft(w, k, off), lo, hi)
    decreases k
  {
    hide *;
    t.IfftUniform(w, k, off, size);
    UniformHas(t.Ifft(w, k, off), size);
    UniformHas(w, size);
    if k == 0 {
      PowZero();
      t.TransformBase(w, off);
      t.TransformBase(Cut(w, lo, hi), off);
    } else {
      var h := Pow2(k - 1);
      PowStep(k);
      t.IfftStep(w, k, off, h);
      t.IfftStep(Cut(w, lo, hi), k, off, h);
      CutSplit(w, h, lo, hi, size);
      IfftCut(t, w[..h], k - 1, off, lo, hi, size);
      IfftCut(t, w[h..], k - 1, off + h, lo, hi, size);
      var a, b, s := t.Ifft(w[..h], k - 1, off), t.Ifft(w[h..], k - 1, off + h), off + h - 1;
      ButterfliesCut(t, a, b, s, lo, hi, size);
      CutJoin(t.LowUp(a, b, s), t.HighUp(a, b), lo, hi, size);
    }
  }

  lemma PaddedCut(data: seq<Shard>, k: nat, m: nat, lo: nat, hi: nat, size: nat)
    requires k <= m && k <= |data| && lo <= hi <= size && Uniform(data, size)
    ensures Uniform(Padded(data, k, m, size), size)
    ensures Padded(Cut(data, lo, hi), k, m, hi - lo) == Cut(Padded(data, k, m, size), lo, hi)
    ensures Cut(data, lo, hi)[k..] == Cut(data[k..], lo, hi)
  {
    assert Clear(size)[lo..hi] == Clear(hi - lo);
    var x, y := Padded(Cut(data, lo, hi), k, m, hi - lo), Cut(Padded(data, k, m, size), lo, hi);
    forall i | 0 <= i < m ensures x[i] == y[i] {
    }
  }

  lemma ChunkCut(t: Leopard, u: seq<Shard>, k: nat, m: nat, n: nat, off: nat, lo: nat, hi: nat, size: nat)
    requires k <= m == Pow2(n) && k <= |u| && off + m <= |t.skew| + 1 && t.KeepsLength() && Columnwise(t)
    requires lo <= hi <= size && lo % 64 == 0 && hi % 64 == 0 && Uniform(u, size)
    ensures Uniform(t.Ifft(Padded(u, k, m, size), n, off), size)
    ensures t.Ifft(Padded(Cut(u, lo, hi), k, m, hi - lo), n, off) == Cut(t.Ifft(Padded(u, k, m, size), n, off), lo, hi)
  {
    hide *;
    PaddedCut(u, k, m, lo, hi, size);
    UniformHas(u, size);
    IfftCut(t, Padded(u, k, m, size), n, off, lo, hi, size);
    UniformHas(t.Ifft(Padded(u, k, m, size), n, off), size);
  }

  lemma XorRowsCut(u: seq<Shard>, v: seq<Shard>, lo: nat, hi: nat, size: nat)
    requires |u| == |v| && lo <= hi <= size && Uniform(u, size) && Uniform(v, size)
    ensures Uniform(XorRows(u, v), size)
    ensures XorRows(Cut(u, lo, hi), Cut(v, lo, hi)) == Cut(XorRows(u, v), lo, hi)
  {
    hide Xor2;
    XorRowsUniform(u, v, size);
    forall i | 0 <= i < |u| ensures XorRows(Cut(u, lo, hi), Cut(v, lo, hi))[i] == Cut(XorRows(u, v), lo, hi)[i] {
      Xor2Cut(u[i], v[i], lo, hi);
    }
  }

  lemma {:induction false} FoldCut(t: Leopard, a: seq<Shard>, u: seq<Shard>, n: nat, off: nat, lo: nat, hi: nat,
                                   size: nat)
    requires |a| == Pow2(n) && Fits(off, |u|, Pow2(n), |t.skew| + 1) && t.KeepsLength() && Columnwise(t)
    requires lo <= hi <= size && lo % 64 == 0 && hi % 64 == 0 && Uniform(a, size) && Uniform(u, size)
    ensures Uniform(Fold(t, a, u, n, off, size), size)
    ensures Fold(t, Cut(a, lo, hi), Cut(u, lo, hi), n, off, hi - lo) == Cut(Fold(t, a, u, n, off, size), lo, hi)
    decreases |u|
  {
    hide *;
    var m := Pow2(n);
    UniformHas(a, size);
    UniformHas(u, size);
    if u == [] {
      assert Cut(u, lo, hi) == [];
      FoldEnd(t, a, n, off, size);
      FoldEnd(t, Cut(a, lo, hi), n, off, hi - lo);
    } else {
      var k := Min(m, |u|);
      MinBound(m, |u|);
      FoldStep(t, a, u, n, off, size, m, k);
      FoldStep(t, Cut(a, lo, hi), Cut(u, lo, hi), n, off, hi - lo, m, k);
      ChunkCut(t, u, k, m, n, SkewStart(off, m), lo, hi, size);
      var x := t.Ifft(Padded(u, k, m, size), n, SkewStart(off, m));
      XorRowsCut(a, x, lo, hi, size);
      PaddedCut(u, k, m, lo, hi, size);
      UniformSplit(u, k, size);
      FoldCut(t, XorRows(a, x), u[k..], n, off + m, lo, hi, size);
      UniformHas(Fold(t, a, u, n, off, size), size);
    }
  }

  // Encoding a stretch of columns gives that stretch of the parity.
  lemma ParityCut(t: Leopard, u: seq<Shard>, n: nat, p: nat, lo: nat, hi: nat, size: nat)
    requires u != [] && p <= Pow2(n) && Fits(Pow2(n), |u|, Pow2(n), |t.skew| + 1) && t.KeepsLength() && Columnwise(t)
    requires lo <= hi <= size && lo % 64 == 0 && hi % 64 == 0 && Uniform(u, size)
    ensures Uniform(Parity(t, u, n, p, size), size)
    ensures Parity(t, Cut(u, lo, hi), n, p, hi - lo) == Cut(Parity(t, u, n, p, size), lo, hi)
  {
    hide *;
    ParityOfSummed(t, u, n, p, size);
    UniformHas(u, size);
    ParityOfSummed(t, Cut(u, lo, hi), n, p, hi - lo);
    SummedCut(t, u, n, lo, hi, size);
    UniformHas(Summed(t, u, n, size), size);
    FftCut(t, Summed(t, u, n, size), n, 0, lo, hi, size);
    UniformHas(t.Fft(Summed(t, u, n, size), n, 0), size);
    CutSplit(t.Fft(Summed(t, u, n, size), n, 0), p, lo, hi, size);
  }

  lemma SummedCut(t: Leopard, u: seq<Shard>, n: nat, lo: nat, hi: nat, size: nat)
    requires u != [] && Fits(Pow2(n), |u|, Pow2(n), |t.skew| + 1) && t.KeepsLength() && Columnwise(t)
    requires lo <= hi <= size && lo % 64 == 0 && hi % 64 == 0 && Uniform(u, size)
    ensures Uniform(Summed(t, u, n, size), size)
    ensures Summed(t, Cut(u, lo, hi), n, hi - lo) == Cut(Summed(t, u, n, size), lo, hi)
  {
    hide Fold, Leopard.Ifft, Leopard.KeepsLength, Padded, Pow2, Uniform, Fits, Columnwise, Cut;
    var m := Pow2(n);
    var k := Min(m, |u|);
    FitsStart(m, |u|, m, |t.skew| + 1);
    UniformHas(u, size);
    ChunkCut(t, u, k, m, n, SkewStart(m, m), lo, hi, size);
    PaddedCut(u, k, m, lo, hi, size);
    UniformSplit(u, k, size);
    FoldCut(t, t.Ifft(Padded(u, k, m, size), n, SkewStart(m, m)), u[k..], n, 2 * m, lo, hi, size);
    UniformHas(Summed(t, u, n, size), size);
  }
}
