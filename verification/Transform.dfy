// The Leopard transform by halves: the definition that the unrolled in-place loops of
// leopard.go and leopard8.go are proved against.
module Transform {

  import opened BitXor
  import opened Shards

  // The parameters of a codec: its modulus, its skew table of logarithms and its product of
  // a shard by the element with a given logarithm.
  datatype Leopard = Leopard(modulus: nat, skew: seq<nat>, mul: (nat, Shard) -> Shard) {

    // A skew logarithm equal to the modulus stands for a factor of zero.
    function Twiddle(k: nat, y: Shard): Shard
      requires k < |skew|
    {
      if skew[k] == modulus then Clear(|y|) else mul(skew[k], y)
    }

    ghost predicate KeepsLength() {
      forall log: nat, y: Shard :: |mul(log, y)| == |y|
    }

    ghost predicate Linear() {
      && KeepsLength()
      && forall log: nat, x: Shard, y: Shard | |x| == |y| ::
           mul(log, Xor2(x, y)) == Xor2(mul(log, x), mul(log, y))
    }

    // One butterfly for each pair of shards of the halves a and b, with skew entry s.
    function LowDown(a: seq<Shard>, b: seq<Shard>, s: nat): (r: seq<Shard>)
      requires |a| == |b| && s < |skew|
      ensures |r| == |a|
    {
      seq(|a|, i requires 0 <= i < |a| && |a| == |b| => Xor2(a[i], Twiddle(s, b[i])))
    }

    function HighDown(a: seq<Shard>, b: seq<Shard>, s: nat): (r: seq<Shard>)
      requires |a| == |b| && s < |skew|
      ensures |r| == |a|
    {
      seq(|a|, i requires 0 <= i < |a| && |a| == |b| => Xor2(b[i], LowDown(a, b, s)[i]))
    }

    function HighUp(a: seq<Shard>, b: seq<Shard>): (r: seq<Shard>)
      requires |a| == |b|
      ensures |r| == |a|
    {
      seq(|a|, i requires 0 <= i < |a| && |a| == |b| => Xor2(b[i], a[i]))
    }

    function LowUp(a: seq<Shard>, b: seq<Shard>, s: nat): (r: seq<Shard>)
      requires |a| == |b| && s < |skew|
      ensures |r| == |a|
    {
      seq(|a|, i requires 0 <= i < |a| && |a| == |b| => Xor2(a[i], Twiddle(s, HighUp(a, b)[i])))
    }

    // Transform of the 2^k shards w that start at position off.
    function Fft(w: seq<Shard>, k: nat, off: nat): (r: seq<Shard>)
      requires |w| == Pow2(k) && off + |w| <= |skew| + 1
      ensures |r| == |w|
      decreases k
    {
      if k == 0 then w
      else
        var h := Pow2(k - 1);
        Fft(LowDown(w[..h], w[h..], off + h - 1), k - 1, off)
        + Fft(HighDown(w[..h], w[h..], off + h - 1), k - 1, off + h)
    }

    function Ifft(w: seq<Shard>, k: nat, off: nat): (r: seq<Shard>)
      requires |w| == Pow2(k) && off + |w| <= |skew| + 1
      ensures |r| == |w|
      decreases k
    {
      if k == 0 then w
      else
        var h := Pow2(k - 1);
        var a, b := Ifft(w[..h], k - 1, off), Ifft(w[h..], k - 1, off + h);
        LowUp(a, b, off + h - 1) + HighUp(a, b)
    }

    // One level of each definition.
    lemma FftStep(w: seq<Shard>, k: nat, off: nat, h: nat)
      requires k > 0 && h == Pow2(k - 1) && |w| == Pow2(k) && off + |w| <= |skew| + 1
      ensures |w| == 2 * h
      ensures Fft(w, k, off) == Fft(LowDown(w[..h], w[h..], off + h - 1), k - 1, off)
                              + Fft(HighDown(w[..h], w[h..], off + h - 1), k - 1, off + h)
    {
    }

    lemma IfftStep(w: seq<Shard>, k: nat, off: nat, h: nat)
      requires k > 0 && h == Pow2(k - 1) && |w| == Pow2(k) && off + |w| <= |skew| + 1
      ensures |w| == 2 * h
      ensures Ifft(w, k, off) == LowUp(Ifft(w[..h], k - 1, off), Ifft(w[h..], k - 1, off + h), off + h - 1)
                               + HighUp(Ifft(w[..h], k - 1, off), Ifft(w[h..], k - 1, off + h))
    {
    }

    lemma TransformBase(w: seq<Shard>, off: nat)
      requires |w| == 1 && off <= |skew|
      ensures Fft(w, 0, off) == w && Ifft(w, 0, off) == w
    {
    }

    // ---------- Lengths ----------

    lemma ButterfliesUniform(a: seq<Shard>, b: seq<Shard>, s: nat, size: nat)
      requires |a| == |b| && s < |skew| && Uniform(a, size) && Uniform(b, size)
      ensures Uniform(LowDown(a, b, s), size) && Uniform(HighDown(a, b, s), size)
      ensures Uniform(LowUp(a, b, s), size) && Uniform(HighUp(a, b), size)
    {
      hide Xor2;
    }

    lemma {:induction false} FftUniform(w: seq<Shard>, k: nat, off: nat, size: nat)
      requires |w| == Pow2(k) && off + |w| <= |skew| + 1 && Uniform(w, size)
      ensures Uniform(Fft(w, k, off), size)
      decreases k
    {
      hide *;
      if k == 0 {
        PowZero();
        TransformBase(w, off);
      } else {
        var h := Pow2(k - 1);
        PowStep(k);
        FftStep(w, k, off, h);
        var a, b, s := w[..h], w[h..], off + h - 1;
        UniformSplit(w, h, size);
        ButterfliesUniform(a, b, s, size);
        FftUniform(LowDown(a, b, s), k - 1, off, size);
        FftUniform(HighDown(a, b, s), k - 1, off + h, size);
        UniformJoin(Fft(LowDown(a, b, s), k - 1, off), Fft(HighDown(a, b, s), k - 1, off + h), size);
      }
    }

    lemma {:induction false} IfftUniform(w: seq<Shard>, k: nat, off: nat, size: nat)
      requires |w| == Pow2(k) && off + |w| <= |skew| + 1 && Uniform(w, size)
      ensures Uniform(Ifft(w, k, off), size)
      decreases k
    {
      hide *;
      if k == 0 {
        PowZero();
        TransformBase(w, off);
      } else {
        var h := Pow2(k - 1);
        PowStep(k);
        IfftStep(w, k, off, h);
        UniformSplit(w, h, size);
        IfftUniform(w[..h], k - 1, off, size);
        IfftUniform(w[h..], k - 1, off + h, size);
        var a, b, s := Ifft(w[..h], k - 1, off), Ifft(w[h..], k - 1, off + h), off + h - 1;
        ButterfliesUniform(a, b, s, size);
        UniformJoin(LowUp(a, b, s), HighUp(a, b), size);
      }
    }

    // ---------- The two transforms undo each other ----------

    lemma ButterfliesCancel(a: seq<Shard>, b: seq<Shard>, s: nat, size: nat)
      requires |a| == |b| && s < |skew| && Uniform(a, size) && Uniform(b, size) && KeepsLength()
      ensures LowUp(LowDown(a, b, s), HighDown(a, b, s), s) == a && HighUp(LowDown(a, b, s), HighDown(a, b, s)) == b
      ensures LowDown(LowUp(a, b, s), HighUp(a, b), s) == a && HighDown(LowUp(a, b, s), HighUp(a, b), s) == b
    {
      hide Xor2;
      forall i | 0 <= i < |a|
        ensures HighUp(LowDown(a, b, s), HighDown(a, b, s))[i] == b[i]
        ensures LowUp(LowDown(a, b, s), HighDown(a, b, s), s)[i] == a[i]
        ensures LowDown(LowUp(a, b, s), HighUp(a, b), s)[i] == a[i]
        ensures HighDown(LowUp(a, b, s), HighUp(a, b), s)[i] == b[i]
      {
        assert |a[i]| == size && |b[i]| == size;
        Xor2Cancels(b[i], LowDown(a, b, s)[i]);
        Xor2Cancels(a[i], Twiddle(s, b[i]));
        Xor2Cancels(a[i], Twiddle(s, HighUp(a, b)[i]));
        Xor2Cancels(b[i], a[i]);
      }
    }

    // For every skew table and every map in place of the product by a logarithm.
    lemma {:induction false} IfftFft(w: seq<Shard>, k: nat, off: nat, size: nat)
      requires |w| == Pow2(k) && off + |w| <= |skew| + 1 && Uniform(w, size) && KeepsLength()
      ensures Ifft(Fft(w, k, off), k, off) == w
      decreases k
    {
      hide *;
      if k == 0 {
        PowZero();
        TransformBase(w, off);
      } else {
        var h := Pow2(k - 1);
        PowStep(k);
        FftStep(w, k, off, h);
        var a, b, s := w[..h], w[h..], off + h - 1;
        UniformSplit(w, h, size);
        ButterfliesUniform(a, b, s, size);
        IfftFft(LowDown(a, b, s), k - 1, off, size);
        IfftFft(HighDown(a, b, s), k - 1, off + h, size);
        ButterfliesCancel(a, b, s, size);
        Halves(Fft(LowDown(a, b, s), k - 1, off), Fft(HighDown(a, b, s), k - 1, off + h));
        IfftStep(Fft(w, k, off), k, off, h);
      }
    }

    lemma {:induction false} FftIfft(w: seq<Shard>, k: nat, off: nat, size: nat)
      requires |w| == Pow2(k) && off + |w| <= |skew| + 1 && Uniform(w, size) && KeepsLength()
      ensures Fft(Ifft(w, k, off), k, off) == w
      decreases k
    {
      hide *;
      if k == 0 {
        PowZero();
        TransformBase(w, off);
      } else {
        var h := Pow2(k - 1);
        PowStep(k);
        IfftStep(w, k, off, h);
        UniformSplit(w, h, size);
        FftIfft(w[..h], k - 1, off, size);
        FftIfft(w[h..], k - 1, off + h, size);
        var a, b, s := Ifft(w[..h], k - 1, off), Ifft(w[h..], k - 1, off + h), off + h - 1;
        IfftUniform(w[..h], k - 1, off, size);
        IfftUniform(w[h..], k - 1, off + h, size);
        ButterfliesCancel(a, b, s, size);
        Halves(LowUp(a, b, s), HighUp(a, b));
        FftStep(Ifft(w, k, off), k, off, h);
      }
    }

    // ---------- Linearity ----------

    lemma TwiddleLinear(s: nat, x: Shard, y: Shard)
      requires s < |skew| && Linear() && |x| == |y|
      ensures Twiddle(s, Xor2(x, y)) == Xor2(Twiddle(s, x), Twiddle(s, y))
    {
      hide Xor2;
      Xor2Laws(Clear(|x|), Clear(|x|), Clear(|x|));
    }

    lemma ButterfliesLinear(a: seq<Shard>, b: seq<Shard>, c: seq<Shard>, d: seq<Shard>, s: nat, size: nat)
      requires |a| == |b| == |c| == |d| && s < |skew| && Linear()
      requires Uniform(a, size) && Uniform(b, size) && Uniform(c, size) && Uniform(d, size)
      ensures LowDown(XorRows(a, c), XorRows(b, d), s) == XorRows(LowDown(a, b, s), LowDown(c, d, s))
      ensures HighDown(XorRows(a, c), XorRows(b, d), s) == XorRows(HighDown(a, b, s), HighDown(c, d, s))
      ensures HighUp(XorRows(a, c), XorRows(b, d)) == XorRows(HighUp(a, b), HighUp(c, d))
      ensures LowUp(XorRows(a, c), XorRows(b, d), s) == XorRows(LowUp(a, b, s), LowUp(c, d, s))
    {
      hide Xor2, Linear;
      assert KeepsLength() by {
        LinearKeepsLength();
      }
      var e, f := XorRows(a, c), XorRows(b, d);
      forall i | 0 <= i < |a|
        ensures LowDown(e, f, s)[i] == XorRows(LowDown(a, b, s), LowDown(c, d, s))[i]
        ensures HighDown(e, f, s)[i] == XorRows(HighDown(a, b, s), HighDown(c, d, s))[i]
        ensures HighUp(e, f)[i] == XorRows(HighUp(a, b), HighUp(c, d))[i]
        ensures LowUp(e, f, s)[i] == XorRows(LowUp(a, b, s), LowUp(c, d, s))[i]
      {
        assert |a[i]| == |b[i]| == |c[i]| == |d[i]| == size;
        TwiddleLinear(s, b[i], d[i]);
        Xor2Exchange(a[i], c[i], Twiddle(s, b[i]), Twiddle(s, d[i]));
        Xor2Exchange(b[i], d[i], LowDown(a, b, s)[i], LowDown(c, d, s)[i]);
        Xor2Exchange(b[i], d[i], a[i], c[i]);
        TwiddleLinear(s, HighUp(a, b)[i], HighUp(c, d)[i]);
        Xor2Exchange(a[i], c[i], Twiddle(s, HighUp(a, b)[i]), Twiddle(s, HighUp(c, d)[i]));
      }
    }

    lemma LinearKeepsLength()
      requires Linear()
      ensures KeepsLength()
    {
    }

    lemma {:induction false} FftLinear(u: seq<Shard>, v: seq<Shard>, k: nat, off: nat, size: nat)
      requires |u| == |v| == Pow2(k) && off + |u| <= |skew| + 1 && Linear()
      requires Uniform(u, size) && Uniform(v, size)
      ensures Fft(XorRows(u, v), k, off) == XorRows(Fft(u, k, off), Fft(v, k, off))
      decreases k
    {
      hide *;
      var w := XorRows(u, v);
      if k == 0 {
        PowZero();
        TransformBase(u, off);
        TransformBase(v, off);
        TransformBase(w, off);
      } else {
        var h := Pow2(k - 1);
        PowStep(k);
        FftStep(u, k, off, h);
        FftStep(v, k, off, h);
        FftStep(w, k, off, h);
        var a, b, c, d, s := u[..h], u[h..], v[..h], v[h..], off + h - 1;
        XorRowsSplit(u, v, h);
        UniformSplit(u, h, size);
        UniformSplit(v, h, size);
        ButterfliesUniform(a, b, s, size);
        ButterfliesUniform(c, d, s, size);
        ButterfliesLinear(a, b, c, d, s, size);
        var lu, gu, lv, gv := LowDown(a, b, s), HighDown(a, b, s), LowDown(c, d, s), HighDown(c, d, s);
        FftLinear(lu, lv, k - 1, off, size);
        FftLinear(gu, gv, k - 1, off + h, size);
        XorRowsJoin(Fft(lu, k - 1, off), Fft(lv, k - 1, off), Fft(gu, k - 1, off + h), Fft(gv, k - 1, off + h));
      }
    }

    lemma {:induction false} IfftLinear(u: seq<Shard>, v: seq<Shard>, k: nat, off: nat, size: nat)
      requires |u| == |v| == Pow2(k) && off + |u| <= |skew| + 1 && Linear()
      requires Uniform(u, size) && Uniform(v, size)
      ensures Ifft(XorRows(u, v), k, off) == XorRows(Ifft(u, k, off), Ifft(v, k, off))
      decreases k
    {
      hide *;
      var w := XorRows(u, v);
      if k == 0 {
        PowZero();
        TransformBase(u, off);
        TransformBase(v, off);
        TransformBase(w, off);
      } else {
        var h := Pow2(k - 1);
        PowStep(k);
        IfftStep(u, k, off, h);
        IfftStep(v, k, off, h);
        IfftStep(w, k, off, h);
        XorRowsSplit(u, v, h);
        UniformSplit(u, h, size);
        UniformSplit(v, h, size);
        IfftLinear(u[..h], v[..h], k - 1, off, size);
        IfftLinear(u[h..], v[h..], k - 1, off + h, size);
        var a, b, s := Ifft(u[..h], k - 1, off), Ifft(u[h..], k - 1, off + h), off + h - 1;
        var c, d := Ifft(v[..h], k - 1, off), Ifft(v[h..], k - 1, off + h);
        IfftUniform(u[..h], k - 1, off, size);
        IfftUniform(u[h..], k - 1, off + h, size);
        IfftUniform(v[..h], k - 1, off, size);
        IfftUniform(v[h..], k - 1, off + h, size);
        ButterfliesLinear(a, b, c, d, s, size);
        XorRowsJoin(LowUp(a, b, s), LowUp(c, d, s), HighUp(a, b), HighUp(c, d));
      }
    }

    // Zeros stay zeros, which is what lets the loops skip them.
    lemma IfftZeros(k: nat, off: nat, size: nat)
      requires off + Pow2(k) <= |skew| + 1 && Linear()
      ensures Ifft(ClearRows(Pow2(k), size), k, off) == ClearRows(Pow2(k), size)
    {
      hide *;
      var z := ClearRows(Pow2(k), size);
      ClearRowsUniform(Pow2(k), size);
      XorRowsSelf(z, size);
      IfftLinear(z, z, k, off, size);
      IfftUniform(z, k, off, size);
      XorRowsSelf(Ifft(z, k, off), size);
    }
  }
}
