// What encoding makes of the shards: parity shards, data shards and zeros behind them are the
// values of a polynomial without its 2^n highest coefficients.
module Codewords {

  import opened BitXor
  import opened Modular
  import opened Shards
  import opened Transform
  import opened LeopardEncode
  import opened NovelBasis
  import opened Evaluation

  // ---------- Sums of rows ----------

  lemma RowsLaws(u: seq<Shard>, v: seq<Shard>, w: seq<Shard>, size: nat)
    requires |u| == |v| == |w| && Uniform(u, size) && Uniform(v, size) && Uniform(w, size)
    ensures XorRows(XorRows(u, v), w) == XorRows(u, XorRows(v, w))
    ensures XorRows(u, ClearRows(|u|, size)) == u && XorRows(u, u) == ClearRows(|u|, size)
    ensures Uniform(XorRows(u, v), size)
  {
    hide Xor2, Clear;
    forall i | 0 <= i < |u|
      ensures XorRows(XorRows(u, v), w)[i] == XorRows(u, XorRows(v, w))[i]
      ensures XorRows(u, ClearRows(|u|, size))[i] == u[i] && XorRows(u, u)[i] == ClearRows(|u|, size)[i]
    {
      assert |u[i]| == |v[i]| == |w[i]| == size;
      Xor2Laws(u[i], v[i], w[i]);
    }
  }

  // The inverse transforms of all blocks of 2^n shards, added up.
  function BlockSum(t: Leopard, w: seq<Shard>, n: nat, off: nat, size: nat): (r: seq<Shard>)
    requires off + |w| <= |t.skew| + 1
    ensures |r| == Pow2(n)
    decreases |w|
  {
    var m := Pow2(n);
    if |w| < m then ClearRows(m, size)
    else XorRows(t.Ifft(w[..m], n, off), BlockSum(t, w[m..], n, off + m, size))
  }

  lemma BlockSumStep(t: Leopard, w: seq<Shard>, n: nat, off: nat, size: nat, m: nat)
    requires off + |w| <= |t.skew| + 1 && m == Pow2(n) <= |w|
    ensures |w[..m]| == Pow2(n) && off + m <= |t.skew| + 1
    ensures BlockSum(t, w, n, off, size) == XorRows(t.Ifft(w[..m], n, off), BlockSum(t, w[m..], n, off + m, size))
  {
    hide XorRows, Leopard.Ifft, Pow2, ClearRows;
  }

  lemma BlockSumNone(t: Leopard, n: nat, off: nat, size: nat)
    requires off <= |t.skew| + 1
    ensures BlockSum(t, [], n, off, size) == ClearRows(Pow2(n), size)
  {
  }

  lemma {:induction false} BlockSumUniform(t: Leopard, w: seq<Shard>, n: nat, off: nat, size: nat)
    requires off + |w| <= |t.skew| + 1 && Uniform(w, size)
    ensures Uniform(BlockSum(t, w, n, off, size), size)
    decreases |w|
  {
    hide Leopard.Ifft, XorRows, Pow2;
    var m := Pow2(n);
    if |w| < m {
      ClearRowsUniform(m, size);
    } else {
      UniformSplit(w, m, size);
      t.IfftUniform(w[..m], n, off, size);
      BlockSumUniform(t, w[m..], n, off + m, size);
      XorRowsUniform(t.Ifft(w[..m], n, off), BlockSum(t, w[m..], n, off + m, size), size);
    }
  }

  lemma RestLength(x: nat, m: nat)
    requires 0 < m <= x && x % m == 0
    ensures (x - m) % m == 0
  {
    CongShift(x, -1, m);
  }

  lemma ShortMultiple(x: nat, m: nat)
    requires 0 < m && x < m && x % m == 0
    ensures x == 0
  {
    ModUnique(x, 0, x, m);
  }

  lemma {:induction false} BlockSumJoin(t: Leopard, u: seq<Shard>, v: seq<Shard>, n: nat, off: nat, size: nat)
    requires off + |u| + |v| <= |t.skew| + 1 && Uniform(u, size) && Uniform(v, size) && |u| % Pow2(n) == 0
    ensures BlockSum(t, u + v, n, off, size)
         == XorRows(BlockSum(t, u, n, off, size), BlockSum(t, v, n, off + |u|, size))
    decreases |u|
  {
    hide *;
    var m := Pow2(n);
    PowSome(n);
    BlockSumUniform(t, v, n, off + |u|, size);
    var sv := BlockSum(t, v, n, off + |u|, size);
    if |u| < m {
      ShortMultiple(|u|, m);
      assert u == [] && u + v == v;
      BlockSumNone(t, n, off, size);
      ClearFirst(sv, size);
    } else {
      RestLength(|u|, m);
      JoinRest(u, v, m);
      UniformSplit(u, m, size);
      BlockSumStep(t, u + v, n, off, size, m);
      BlockSumStep(t, u, n, off, size, m);
      BlockSumJoin(t, u[m..], v, n, off + m, size);
      t.IfftUniform(u[..m], n, off, size);
      BlockSumUniform(t, u[m..], n, off + m, size);
      RowsLaws(t.Ifft(u[..m], n, off), BlockSum(t, u[m..], n, off + m, size), sv, size);
    }
  }

  lemma PowSome(n: nat)
    ensures Pow2(n) >= 1
  {
  }

  lemma JoinRest<T>(u: seq<T>, v: seq<T>, m: nat)
    requires m <= |u|
    ensures (u + v)[..m] == u[..m] && (u + v)[m..] == u[m..] + v
  {
  }

  lemma ClearFirst(v: seq<Shard>, size: nat)
    requires Uniform(v, size)
    ensures XorRows(ClearRows(|v|, size), v) == v
  {
    hide Xor2, Clear;
    forall i | 0 <= i < |v| ensures XorRows(ClearRows(|v|, size), v)[i] == v[i] {
      assert |v[i]| == size;
      Xor2Laws(v[i], v[i], v[i]);
    }
  }

  // ---------- The highest coefficients ----------

  lemma MultipleOfBlock(n: nat, k: nat)
    requires n <= k
    ensures Pow2(k) % Pow2(n) == 0 && Pow2(n) <= Pow2(k)
  {
    var q := PowMultiple(n, k);
    PowSome(n);
    PowSome(k);
    hide Pow2;
    ModUnique(Pow2(k), q, 0, Pow2(n));
    if q <= 0 {
      MulMonotone(q, 0, Pow2(n));
    }
    MulMonotone(1, q, Pow2(n));
  }

  // They are the sum over all blocks.
  lemma {:induction false} HighestRows(t: Leopard, w: seq<Shard>, n: nat, k: nat, off: nat, size: nat)
    requires n <= k && |w| == Pow2(k) && off + |w| <= |t.skew| + 1 && Uniform(w, size)
    ensures Pow2(n) <= |w|
    ensures t.Ifft(w, k, off)[|w| - Pow2(n)..] == BlockSum(t, w, n, off, size)
    decreases k
  {
    hide *;
    var m := Pow2(n);
    MultipleOfBlock(n, k);
    if n == k {
      PowSome(n);
      BlockSumStep(t, w, n, off, size, m);
      assert w[..m] == w && w[m..] == [];
      BlockSumNone(t, n, off + m, size);
      t.IfftUniform(w, k, off, size);
      RowsLaws(t.Ifft(w, k, off), t.Ifft(w, k, off), t.Ifft(w, k, off), size);
    } else {
      var h := Pow2(k - 1);
      PowStep(k);
      MultipleOfBlock(n, k - 1);
      t.IfftStep(w, k, off, h);
      UniformSplit(w, h, size);
      HighestRows(t, w[..h], n, k - 1, off, size);
      HighestRows(t, w[h..], n, k - 1, off + h, size);
      assert w == w[..h] + w[h..];
      BlockSumJoin(t, w[..h], w[h..], n, off, size);
      var a, b := t.Ifft(w[..h], k - 1, off), t.Ifft(w[h..], k - 1, off + h);
      t.IfftUniform(w[..h], k - 1, off, size);
      t.IfftUniform(w[h..], k - 1, off + h, size);
      HighEnd(t, a, b, off + h - 1, m, size);
    }
  }

  lemma HighEnd(t: Leopard, a: seq<Shard>, b: seq<Shard>, s: nat, m: nat, size: nat)
    requires |a| == |b| && s < |t.skew| && m <= |a| && Uniform(a, size) && Uniform(b, size)
    ensures (t.LowUp(a, b, s) + t.HighUp(a, b))[2 * |a| - m..] == XorRows(a[|a| - m..], b[|b| - m..])
  {
    hide Xor2;
    var low, high, d := t.LowUp(a, b, s), t.HighUp(a, b), |a| - m;
    assert (low + high)[2 * |a| - m..] == high[d..];
    forall i | 0 <= i < m ensures high[d..][i] == XorRows(a[d..], b[d..])[i] {
      assert |a[d..][i]| == size && |b[d..][i]| == size;
      Xor2Laws(a[d..][i], b[d..][i], a[d..][i]);
    }
  }

  // ---------- The encoder ----------

  lemma {:induction false} BlockSumZeros(t: Leopard, z: nat, n: nat, off: nat, size: nat)
    requires off + z <= |t.skew| + 1 && t.Linear()
    ensures BlockSum(t, ClearRows(z, size), n, off, size) == ClearRows(Pow2(n), size)
    decreases z
  {
    hide Leopard.Ifft, XorRows, Pow2, Leopard.Linear, ClearRows;
    var m := Pow2(n);
    if z >= m {
      ClearRowsCut(z, m, size);
      BlockSumStep(t, ClearRows(z, size), n, off, size, m);
      t.IfftZeros(n, off, size);
      BlockSumZeros(t, z - m, n, off + m, size);
      ClearRowsUniform(m, size);
      XorRowsSelf(ClearRows(m, size), size);
    }
  }

  lemma ClearRowsCut(z: nat, m: nat, size: nat)
    requires m <= z
    ensures ClearRows(z, size)[..m] == ClearRows(m, size) && ClearRows(z, size)[m..] == ClearRows(z - m, size)
    ensures ClearRows(m, size) + ClearRows(z - m, size) == ClearRows(z, size)
  {
  }

  // A transform of one shard reads no entry, so that its offset does not matter.
  lemma SameStart(t: Leopard, w: seq<Shard>, n: nat, off: nat)
    requires |w| == Pow2(n) && off + |w| <= |t.skew| + 1
    ensures SkewStart(off, Pow2(n)) + |w| <= |t.skew| + 1
    ensures t.Ifft(w, n, SkewStart(off, Pow2(n))) == t.Ifft(w, n, off)
  {
    hide Leopard.Ifft;
    if Pow2(n) == 1 {
      if n > 0 {
        PowStep(n);
      }
      t.TransformBase(w, off);
      t.TransformBase(w, 0);
    }
  }

  // The first chunk of the data with zeros behind them.
  lemma FirstChunk(data: seq<Shard>, z: nat, m: nat, size: nat)
    requires 0 < m && |data| > 0 && (|data| + z) % m == 0
    ensures var k := Min(m, |data|);
            && m <= |data| + z
            && (data + ClearRows(z, size))[..m] == Padded(data, k, m, size)
            && (data + ClearRows(z, size))[m..] == data[k..] + ClearRows(|data| + z - m - |data[k..]|, size)
            && (|data| + z - m) % m == 0 && |data[k..]| <= |data| + z - m
  {
    var total := |data| + z;
    if total < m {
      ShortMultiple(total, m);
    }
    RestLength(total, m);
    var w := data + ClearRows(z, size);
    if m <= |data| {
      assert w[..m] == data[..m] + ClearRows(0, size);
      assert w[m..] == data[m..] + ClearRows(z, size);
    } else {
      assert w[..m] == data + ClearRows(m - |data|, size);
      assert w[m..] == [] + ClearRows(total - m, size);
    }
  }

  // The encoder's sum over chunks is the sum over the blocks of the data and zeros behind them.
  lemma {:induction false} FoldIsBlockSum(t: Leopard, acc: seq<Shard>, data: seq<Shard>, n: nat, off: nat, size: nat,
                                          z: nat)
    requires |acc| == Pow2(n) && Fits(off, |data|, Pow2(n), |t.skew| + 1) && t.Linear()
    requires off + |data| + z <= |t.skew| + 1 && (|data| + z) % Pow2(n) == 0
    requires Uniform(acc, size) && Uniform(data, size)
    ensures Fold(t, acc, data, n, off, size)
         == XorRows(acc, BlockSum(t, data + ClearRows(z, size), n, off, size))
    decreases |data|
  {
    hide *;
    var m := Pow2(n);
    PowSome(n);
    if data == [] {
      FoldEnd(t, acc, n, off, size);
      assert data + ClearRows(z, size) == ClearRows(z, size);
      BlockSumZeros(t, z, n, off, size);
      RowsLaws(acc, acc, acc, size);
    } else {
      var k := Min(m, |data|);
      MinIs(m, |data|);
      var w := data + ClearRows(z, size);
      FirstChunk(data, z, m, size);
      FitsStart(off, |data|, m, |t.skew| + 1);
      FoldStep(t, acc, data, n, off, size, m, k);
      var chunk := Padded(data, k, m, size);
      PaddedUniform(data, k, m, size);
      BlockSumStep(t, w, n, off, size, m);
      SameStart(t, chunk, n, off);
      t.IfftUniform(chunk, n, off, size);
      var row := t.Ifft(chunk, n, off);
      UniformSplit(data, k, size);
      RowsLaws(acc, row, acc, size);
      var z' := |data| + z - m - |data[k..]|;
      FoldIsBlockSum(t, XorRows(acc, row), data[k..], n, off + m, size, z');
      ClearRowsUniform(z', size);
      UniformJoin(data[k..], ClearRows(z', size), size);
      BlockSumUniform(t, w[m..], n, off + m, size);
      RowsLaws(acc, row, BlockSum(t, w[m..], n, off + m, size), size);
    }
  }

  lemma MinIs(a: nat, b: nat)
    ensures Min(a, b) == (if a < b then a else b)
  {
  }

  // Parity shards and those that are not kept, data shards, and zeros.
  function Codeword(t: Leopard, data: seq<Shard>, n: nat, k: nat, size: nat): (r: seq<Shard>)
    requires data != [] && Fits(Pow2(n), |data|, Pow2(n), |t.skew| + 1) && Pow2(n) + |data| <= Pow2(k)
    ensures |r| == Pow2(k)
  {
    t.Fft(Summed(t, data, n, size), n, 0) + (data + ClearRows(Pow2(k) - Pow2(n) - |data|, size))
  }

  lemma SummedIsBlockSum(t: Leopard, data: seq<Shard>, n: nat, size: nat, z: nat)
    requires data != [] && Fits(Pow2(n), |data|, Pow2(n), |t.skew| + 1) && t.Linear() && Uniform(data, size)
    requires Pow2(n) + |data| + z <= |t.skew| + 1 && (|data| + z) % Pow2(n) == 0
    ensures Summed(t, data, n, size) == BlockSum(t, data + ClearRows(z, size), n, Pow2(n), size)
  {
    hide Leopard.Ifft, XorRows, Pow2, Leopard.Linear, ClearRows, Fold, Fits, BlockSum, Padded, SkewStart;
    var m := Pow2(n);
    PowSome(n);
    var k := Min(m, |data|);
    var w := data + ClearRows(z, size);
    FirstChunk(data, z, m, size);
    FitsStart(m, |data|, m, |t.skew| + 1);
    var chunk := Padded(data, k, m, size);
    PaddedUniform(data, k, m, size);
    BlockSumStep(t, w, n, m, size, m);
    SameStart(t, chunk, n, m);
    t.IfftUniform(chunk, n, m, size);
    UniformSplit(data, k, size);
    FoldIsBlockSum(t, t.Ifft(chunk, n, m), data[k..], n, 2 * m, size, |data| + z - m - |data[k..]|);
  }

  lemma CodewordUniform(t: Leopard, data: seq<Shard>, n: nat, k: nat, size: nat)
    requires data != [] && Fits(Pow2(n), |data|, Pow2(n), |t.skew| + 1) && Pow2(n) + |data| <= Pow2(k) <= |t.skew| + 1
    requires t.Linear() && Uniform(data, size) && n <= k
    ensures Uniform(Summed(t, data, n, size), size) && Uniform(Codeword(t, data, n, k, size), size)
  {
    hide Leopard.Fft, Pow2, Leopard.Linear, ClearRows, Fits, BlockSum, Summed;
    var z := Pow2(k) - Pow2(n) - |data|;
    TailBlocks(n, k, |data|, z);
    SummedIsBlockSum(t, data, n, size, z);
    ClearRowsUniform(z, size);
    UniformJoin(data, ClearRows(z, size), size);
    BlockSumUniform(t, data + ClearRows(z, size), n, Pow2(n), size);
    t.FftUniform(Summed(t, data, n, size), n, 0, size);
    UniformJoin(t.Fft(Summed(t, data, n, size), n, 0), data + ClearRows(z, size), size);
  }

  lemma TailBlocks(n: nat, k: nat, len: nat, z: nat)
    requires n <= k && Pow2(n) + len + z == Pow2(k)
    ensures (len + z) % Pow2(n) == 0 && 0 < Pow2(n) <= Pow2(k)
  {
    hide Pow2;
    PowSome(n);
    MultipleOfBlock(n, k);
    RestLength(Pow2(k), Pow2(n));
  }

  // All blocks of a codeword add up to zero.
  lemma CodewordSum(t: Leopard, data: seq<Shard>, n: nat, k: nat, size: nat)
    requires data != [] && Fits(Pow2(n), |data|, Pow2(n), |t.skew| + 1) && Pow2(n) + |data| <= Pow2(k) <= |t.skew| + 1
    requires t.Linear() && Uniform(data, size) && n <= k
    ensures BlockSum(t, Codeword(t, data, n, k, size), n, 0, size) == ClearRows(Pow2(n), size)
  {
    hide *;
    var m := Pow2(n);
    var z := Pow2(k) - m - |data|;
    TailBlocks(n, k, |data|, z);
    var s := Summed(t, data, n, size);
    CodewordUniform(t, data, n, k, size);
    SummedIsBlockSum(t, data, n, size, z);
    var word := Codeword(t, data, n, k, size);
    CodewordParts(t, data, n, k, size);
    BlockSumStep(t, word, n, 0, size, m);
    t.LinearKeepsLength();
    t.IfftFft(s, n, 0, size);
    XorRowsSelf(s, size);
  }

  // The 2^n highest coefficients of a codeword are zero.
  lemma HighestClear(t: Leopard, data: seq<Shard>, n: nat, k: nat, size: nat)
    requires data != [] && Fits(Pow2(n), |data|, Pow2(n), |t.skew| + 1) && Pow2(n) + |data| <= Pow2(k) <= |t.skew| + 1
    requires t.Linear() && Uniform(data, size) && n <= k
    ensures t.Ifft(Codeword(t, data, n, k, size), k, 0)[Pow2(k) - Pow2(n)..] == ClearRows(Pow2(n), size)
  {
    hide *;
    CodewordUniform(t, data, n, k, size);
    CodewordSum(t, data, n, k, size);
    HighestRows(t, Codeword(t, data, n, k, size), n, k, 0, size);
  }

  lemma CodewordParts(t: Leopard, data: seq<Shard>, n: nat, k: nat, size: nat)
    requires data != [] && Fits(Pow2(n), |data|, Pow2(n), |t.skew| + 1) && Pow2(n) + |data| <= Pow2(k)
    ensures Pow2(n) <= |t.skew| + 1
    ensures Codeword(t, data, n, k, size)[..Pow2(n)] == t.Fft(Summed(t, data, n, size), n, 0)
    ensures Codeword(t, data, n, k, size)[Pow2(n)..] == data + ClearRows(Pow2(k) - Pow2(n) - |data|, size)
  {
    hide Leopard.Fft, Pow2, Summed, ClearRows;
    PowSome(n);
    FitsStart(Pow2(n), |data|, Pow2(n), |t.skew| + 1);
  }

  // The polynomial of a codeword, over the field of the codec.
  lemma WordDegree<E(!new)>(t: Leopard, f: Novel<E>, read: Shard -> E, data: seq<Shard>, n: nat, k: nat, size: nat)
    requires Reads(t, f, read, size) && data != [] && Fits(Pow2(n), |data|, Pow2(n), |t.skew| + 1)
    requires Pow2(n) + |data| <= Pow2(k) <= |t.skew| + 1 && t.Linear() && Uniform(data, size) && n <= k
    ensures Uniform(Codeword(t, data, n, k, size), size) && Pow2(n) <= Pow2(k)
    ensures f.Below(Column(t.Ifft(Codeword(t, data, n, k, size), k, 0), read), Pow2(k) - Pow2(n))
  {
    hide *;
    ReadsField(t, f, read, size);
    CodewordUniform(t, data, n, k, size);
    HighestClear(t, data, n, k, size);
    var w := t.Ifft(Codeword(t, data, n, k, size), k, 0);
    var d := Pow2(k) - Pow2(n);
    forall j | d <= j < |w| ensures read(w[j]) == f.zero {
      ClearRowAt(Pow2(n), size, j - d);
      assert w[j] == w[d..][j - d];
    }
    ColumnBelow(f, read, w, d);
  }

  lemma ClearRowAt(n: nat, size: nat, i: nat)
    requires i < n
    ensures ClearRows(n, size)[i] == Clear(size)
  {
  }

  lemma ColumnBelow<E(!new)>(f: Novel<E>, read: Shard -> E, w: seq<Shard>, d: nat)
    requires forall j | d <= j < |w| :: read(w[j]) == f.zero
    ensures f.Below(Column(w, read), d)
  {
  }
}
