// The encoder of leopard.go and leopard8.go: the data shards in chunks of m, an inverse
// transform of each chunk at its own offset, their sum, and one truncated transform.
module LeopardEncode {

  import opened BitXor
  import opened Modular
  import opened Shards
  import opened Transform
  import opened ForwardLoops
  import opened InverseLoops
  import opened PrunedLoops

  // ---------- What is encoded ----------

  function Min(a: nat, b: nat): nat {
    if a < b then a else b
  }

  // The first mtrunc shards and shards of zeros up to m of them.
  function Padded(data: seq<Shard>, mtrunc: nat, m: nat, size: nat): (r: seq<Shard>)
    requires mtrunc <= m && mtrunc <= |data|
    ensures |r| == m
  {
    data[..mtrunc] + ClearRows(m - mtrunc, size)
  }

  // Where a chunk's skew entries start. One shard is its own transform: no entry is read,
  // wherever the slice of the table starts.
  function SkewStart(off: nat, m: nat): nat {
    if m == 1 then 0 else off
  }

  // For each chunk of m of the len shards left, the slices of the table, which start one
  // entry before off, and the entries that are read lie inside a table of order - 1 entries.
  ghost predicate Fits(off: nat, len: nat, m: nat, order: nat)
    requires m > 0
    decreases len
  {
    len > 0 ==>
      && off <= order && SkewStart(off, m) + m <= order
      && (len > m ==> Fits(off + m, len - m, m, order))
  }

  // Adding the inverse transform of every chunk of data to acc.
  function Fold(t: Leopard, acc: seq<Shard>, data: seq<Shard>, n: nat, off: nat, size: nat): (r: seq<Shard>)
    requires |acc| == Pow2(n) && Fits(off, |data|, Pow2(n), |t.skew| + 1)
    ensures |r| == Pow2(n)
    decreases |data|
  {
    if data == [] then acc
    else
      var m := Pow2(n);
      var k := Min(m, |data|);
      Fold(t, XorRows(acc, t.Ifft(Padded(data, k, m, size), n, SkewStart(off, m))), data[k..], n, off + m, size)
  }

  // Before the last transform and the cut to parityShards.
  function Summed(t: Leopard, data: seq<Shard>, n: nat, size: nat): (r: seq<Shard>)
    requires data != [] && Fits(Pow2(n), |data|, Pow2(n), |t.skew| + 1)
    ensures |r| == Pow2(n)
  {
    var m := Pow2(n);
    var k := Min(m, |data|);
    Fold(t, t.Ifft(Padded(data, k, m, size), n, SkewStart(m, m)), data[k..], n, 2 * m, size)
  }

  // The parity of data, for m = 2^n.
  function Parity(t: Leopard, data: seq<Shard>, n: nat, parityShards: nat, size: nat): (r: seq<Shard>)
    requires data != [] && parityShards <= Pow2(n) && Fits(Pow2(n), |data|, Pow2(n), |t.skew| + 1)
    ensures |r| == parityShards
  {
    t.Fft(Summed(t, data, n, size), n, 0)[..parityShards]
  }

  // ---------- When the skew table is long enough ----------

  lemma {:induction false} FitsMultiple(off: nat, len: nat, m: nat, order: nat, q: int)
    requires m > 1 && order == off + q * m && len > 0
    ensures Fits(off, len, m, order) <==> off + len <= order
    decreases len
  {
    if q >= 1 {
      assert q * m >= m;
      if len > m {
        assert order == (off + m) + (q - 1) * m;
        FitsMultiple(off + m, len - m, m, order, q - 1);
      }
    } else {
      assert q * m <= 0;
    }
  }

  lemma {:induction false} FitsOne(off: nat, len: nat, order: nat)
    requires order > 0 && len > 0
    ensures Fits(off, len, 1, order) <==> off + len <= order + 1
    decreases len
  {
    if len > 1 {
      FitsOne(off + 1, len - 1, order);
    }
  }

  lemma {:induction false} PowMultiple(n: nat, w: nat) returns (q: nat)
    requires n <= w
    ensures Pow2(w) == q * Pow2(n)
  {
    if n == w {
      q := 1;
    } else {
      q := PowMultiple(n, w - 1);
      q := 2 * q;
    }
  }

  // Encoding stays inside a skew table of order - 1 entries exactly when m + data <= order,
  // or data <= order when m is 1.
  lemma FitsExactly(n: nat, w: nat, len: nat)
    requires len > 0
    ensures Fits(Pow2(n), len, Pow2(n), Pow2(w)) <==> (if n == 0 then len else Pow2(n) + len) <= Pow2(w)
  {
    if n == 0 {
      PowZero();
      FitsOne(1, len, Pow2(w));
    } else {
      PowStep(n);
      if n <= w {
        var q := PowMultiple(n, w);
        FitsMultiple(Pow2(n), len, Pow2(n), Pow2(w), q - 1);
      } else {
        PowMonotonic(w, n);
      }
    }
  }

  // ---------- ifftDITEncoder ----------

  method IfftEncoder(t: Leopard, data: seq<Shard>, mtrunc: nat, work: array<Shard>, xorRes: array?<Shard>,
                     m: nat, off: nat, ghost n: nat, ghost size: nat)
    requires m == Pow2(n) && mtrunc <= m <= work.Length && mtrunc <= |data| && SkewStart(off, m) + m <= |t.skew| + 1
    requires t.Linear() && Uniform(data[..mtrunc], size) && Uniform(work[..m], size)
    requires xorRes != null ==> xorRes != work && m <= xorRes.Length
    modifies work, xorRes
    ensures work[..m] == t.Ifft(Padded(data, mtrunc, m, size), n, SkewStart(off, m))
    ensures xorRes != null ==> xorRes[..m] == XorRows(old(xorRes[..m]), work[..m])
    ensures forall j | m <= j < work.Length :: work[j] == old(work[j])
    ensures xorRes != null ==> forall j | m <= j < xorRes.Length :: xorRes[j] == old(xorRes[j])
  {
    hide Leopard.Ifft, Leopard.Linear, Pow2, Xor2;
    ghost var dest := if xorRes != null then xorRes[..] else [];
    for i := 0 to mtrunc
      invariant forall j | 0 <= j < i :: work[j] == data[j]
      invariant forall j | i <= j < work.Length :: work[j] == old(work[j])
      invariant xorRes != null ==> xorRes[..] == dest
    {
      assert |data[..mtrunc][i]| == size && |old(work[..m])[i]| == size;
      work[i] := data[i];
    }
    for i := mtrunc to m
      invariant forall j | 0 <= j < mtrunc :: work[j] == data[j]
      invariant forall j | mtrunc <= j < i :: work[j] == Clear(size)
      invariant forall j | i <= j < work.Length :: work[j] == old(work[j])
      invariant xorRes != null ==> xorRes[..] == dest
    {
      assert |old(work[..m])[i]| == size;
      work[i] := Clear(|work[i]|);
    }
    assert work[..m] == Padded(data, mtrunc, m, size);
    IfftDit(t, mtrunc, work, m, SkewStart(off, m), n, size);
    if xorRes != null {
      for i := 0 to m
        invariant work[..m] == t.Ifft(Padded(data, mtrunc, m, size), n, SkewStart(off, m))
        invariant forall j | 0 <= j < i :: xorRes[j] == Xor2(dest[j], work[j])
        invariant forall j | i <= j < xorRes.Length :: xorRes[j] == dest[j]
        invariant forall j | m <= j < work.Length :: work[j] == old(work[j])
      {
        xorRes[i] := Xor2(xorRes[i], work[i]);
      }
    }
  }

  lemma PaddedUniform(data: seq<Shard>, mtrunc: nat, m: nat, size: nat)
    requires mtrunc <= m && mtrunc <= |data| && Uniform(data, size)
    ensures Uniform(Padded(data, mtrunc, m, size), size) && Uniform(data[..mtrunc], size)
  {
  }

  lemma FoldStep(t: Leopard, acc: seq<Shard>, data: seq<Shard>, n: nat, off: nat, size: nat, m: nat, k: nat)
    requires |acc| == Pow2(n) == m && data != [] && k == Min(m, |data|) && Fits(off, |data|, m, |t.skew| + 1)
    ensures SkewStart(off, m) + m <= |t.skew| + 1 && Fits(off + m, |data| - k, m, |t.skew| + 1)
    ensures Fold(t, acc, data, n, off, size)
         == Fold(t, XorRows(acc, t.Ifft(Padded(data, k, m, size), n, SkewStart(off, m))), data[k..], n, off + m, size)
  {
    hide Leopard.Ifft, Padded, XorRows, Pow2, Fits, SkewStart, Fold;
    FitsStart(off, |data|, m, |t.skew| + 1);
    FoldUnfold(t, acc, data, n, off, size, m, k);
  }

  lemma FoldUnfold(t: Leopard, acc: seq<Shard>, data: seq<Shard>, n: nat, off: nat, size: nat, m: nat, k: nat)
    requires |acc| == Pow2(n) == m && data != [] && k == Min(m, |data|) && Fits(off, |data|, m, |t.skew| + 1)
    requires SkewStart(off, m) + m <= |t.skew| + 1 && Fits(off + m, |data| - k, m, |t.skew| + 1)
    ensures Fold(t, acc, data, n, off, size)
         == Fold(t, XorRows(acc, t.Ifft(Padded(data, k, m, size), n, SkewStart(off, m))), data[k..], n, off + m, size)
  {
    hide Leopard.Ifft, Padded, XorRows, Pow2, Fits, SkewStart;
  }

  lemma FoldEnd(t: Leopard, acc: seq<Shard>, n: nat, off: nat, size: nat)
    requires |acc| == Pow2(n)
    ensures Fold(t, acc, [], n, off, size) == acc
  {
  }

  lemma ModStep(x: nat, m: nat)
    requires 0 < m <= x
    ensures (x - m) % m == x % m
  {
    CongShift(x, -1, m);
  }

  lemma ModSmall(x: nat, m: nat)
    requires x < m
    ensures x % m == x
  {
  }

  // One chunk of count shards, added to work.
  method AddChunk(t: Leopard, rest: seq<Shard>, count: nat, work: array<Shard>, scratch: array<Shard>, m: nat, off: nat,
                  ghost n: nat, ghost size: nat)
    requires m == Pow2(n) == work.Length == scratch.Length && work != scratch
    requires 0 < count == Min(m, |rest|) && Fits(off, |rest|, m, |t.skew| + 1) && t.Linear()
    requires Uniform(rest, size) && Uniform(work[..], size) && Uniform(scratch[..], size)
    modifies work, scratch
    ensures Fits(off + m, |rest| - count, m, |t.skew| + 1)
    ensures Fold(t, work[..], rest[count..], n, off + m, size) == Fold(t, old(work[..]), rest, n, off, size)
    ensures Uniform(work[..], size) && Uniform(scratch[..], size) && Uniform(rest[count..], size)
  {
    hide Leopard.Ifft, Leopard.Linear, Pow2, Fold, Fits, Padded, XorRows, SkewStart;
    ghost var before := work[..];
    assert scratch[..] == scratch[..m] && work[..] == work[..m];
    FoldStep(t, before, rest, n, off, size, m, count);
    PaddedUniform(rest, count, m, size);
    IfftEncoder(t, rest, count, scratch, work, m, off, n, size);
    assert scratch[..] == scratch[..m] && work[..] == work[..m];
    IfftRowsUniform(t, rest, count, m, n, SkewStart(off, m), size);
    XorRowsUniform(before, scratch[..], size);
  }

  // One block of encode: work is where the parity goes and scratch the temporary workspace.
  // What either held before does not matter.
  method EncodeBlock(t: Leopard, sh: seq<Shard>, work: array<Shard>, scratch: array<Shard>, parityShards: nat,
                     m: nat, n: nat, ghost size: nat)
    requires m == Pow2(n) && parityShards <= m == work.Length == scratch.Length && work != scratch
    requires sh != [] && Fits(m, |sh|, m, |t.skew| + 1) && t.Linear()
    requires Uniform(sh, size) && Uniform(work[..], size) && Uniform(scratch[..], size)
    modifies work, scratch
    ensures work[..parityShards] == Parity(t, sh, n, parityShards, size)
    ensures Uniform(work[..], size) && Uniform(scratch[..], size)
  {
    hide Leopard.Ifft, Leopard.Fft, Leopard.Linear, Pow2, Fold, Fits, Padded, Uniform, SkewStart;
    PowPositive(n);
    FitsStart(m, |sh|, m, |t.skew| + 1);
    var mtrunc := Min(m, |sh|);
    assert work[..] == work[..m];
    PaddedUniform(sh, mtrunc, m, size);
    IfftEncoder(t, sh, mtrunc, work, null, m, m, n, size);
    IfftRowsUniform(t, sh, mtrunc, m, n, SkewStart(m, m), size);
    assert work[..] == work[..m];
    ghost var goal := Fold(t, work[..], sh[mtrunc..], n, 2 * m, size);
    var lastCount := |sh| % m;
    if m < |sh| {
      var rest := sh[m..];
      var off: nat := 2 * m;
      ModStep(|sh|, m);
      while m <= |rest|
        invariant |rest| % m == lastCount && Uniform(rest, size)
        invariant Uniform(work[..], size) && Uniform(scratch[..], size)
        invariant Fits(off, |rest|, m, |t.skew| + 1)
        invariant Fold(t, work[..], rest, n, off, size) == goal
        decreases |rest|
      {
        ModStep(|rest|, m);
        AddChunk(t, rest, m, work, scratch, m, off, n, size);
        rest := rest[m..];
        off := off + m;
      }
      ModSmall(|rest|, m);
      if lastCount != 0 {
        AddChunk(t, rest, lastCount, work, scratch, m, off, n, size);
        rest := rest[lastCount..];
        off := off + m;
      }
      assert rest == [];
      FoldEnd(t, work[..], n, off, size);
      assert work[..] == goal;
    } else {
      assert sh[mtrunc..] == [];
      FoldEnd(t, work[..], n, 2 * m, size);
      assert work[..] == goal;
    }
    ghost var summed := work[..];
    assert summed == work[..m] == goal;
    FftTruncated(t, work, parityShards, m, n);
    SizesKept(summed, work[..], size);
  }

  lemma SizesKept(u: seq<Shard>, v: seq<Shard>, size: nat)
    requires SameSizes(u, v) && Uniform(u, size)
    ensures Uniform(v, size)
  {
  }

  lemma FitsStart(off: nat, len: nat, m: nat, order: nat)
    requires m > 0 && len > 0 && Fits(off, len, m, order)
    ensures SkewStart(off, m) + m <= order
    ensures (len > m ==> Fits(off + m, len - m, m, order)) && (len <= m ==> Fits(off + m, 0, m, order))
  {
  }

  lemma IfftRowsUniform(t: Leopard, data: seq<Shard>, mtrunc: nat, m: nat, n: nat, off: nat, size: nat)
    requires m == Pow2(n) && mtrunc <= m && mtrunc <= |data| && off + m <= |t.skew| + 1 && Uniform(data, size)
    ensures Uniform(t.Ifft(Padded(data, mtrunc, m, size), n, off), size) && Uniform(data[mtrunc..], size)
  {
    PaddedUniform(data, mtrunc, m, size);
    t.IfftUniform(Padded(data, mtrunc, m, size), n, off, size);
  }
}
