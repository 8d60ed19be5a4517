// What the 8-bit Leopard decoder computes from the shards that are left: scaling by the error
// locator, inverse transform, formal derivative, transform, and scaling back.
module RecoverySpec {

  import opened BitXor
  import opened Modular
  import opened Galois
  import opened LeopardField
  import opened LeopardTables
  import opened Shards
  import opened Transform
  import opened FormalDerivative
  import opened ParityLaws
  import opened Walsh

  // ---------- Erasures ----------

  // Positions 0 to m hold the parity shards and filling, the next dataShards the data shards.
  function PositionOf(i: nat, dataShards: nat, m: nat): nat {
    if i >= dataShards then i - dataShards else i + m
  }

  // errLocs before the transforms.
  function Erasures(shards: seq<Shard>, dataShards: nat, m: nat): (e: seq<nat>)
    requires dataShards <= |shards|
    ensures |e| == 256
  {
    seq(256, i requires 0 <= i && dataShards <= |shards| =>
      if i < |shards| - dataShards then (if shards[dataShards + i] == [] then 1 else 0)
      else if i < m then 1
      else if m <= i < m + dataShards then (if shards[i - m] == [] then 1 else 0)
      else 0)
  }

  lemma ErasureAt(shards: seq<Shard>, dataShards: nat, m: nat, i: nat)
    requires dataShards <= |shards| && i < 256
    ensures Erasures(shards, dataShards, m)[i]
         == if i < |shards| - dataShards then (if shards[dataShards + i] == [] then 1 else 0)
            else if i < m then 1
            else if m <= i < m + dataShards then (if shards[i - m] == [] then 1 else 0)
            else 0
  {
  }

  // The positions that errorBits holds before prepare.
  ghost function Marks(shards: seq<Shard>, dataShards: nat, m: nat, recoverAll: bool): (s: set<nat>)
    requires dataShards <= |shards|
  {
    set i: nat | i < 256 && Erasures(shards, dataShards, m)[i] == 1 && (recoverAll || i >= m)
  }

  // Logarithms, with 0 for that of 0.
  function Logs(): (r: seq<int>)
    ensures |r| == 256
  {
    seq(256, a requires 0 <= a < 256 => if a == 0 then 0 else Log8(a))
  }

  // The sum, over the erased positions j, of the logarithms of i xor j.
  function Locator(e: seq<nat>, i: nat): int {
    Sigma(Paired(e, Logs(), i), 256)
  }

  // loc has, at every position, a logarithm congruent to the locator.
  ghost predicate Locates(loc: seq<nat>, e: seq<nat>) {
    |loc| == 256 && forall i: nat | i < 256 :: loc[i] < 256 && Cong(loc[i], Locator(e, i), 255)
  }

  lemma LocatesBytes(loc: seq<nat>, e: seq<nat>)
    requires Locates(loc, e)
    ensures |loc| == 256 && forall i | 0 <= i < 256 :: loc[i] < 256
  {
    hide Locator;
  }

  // ---------- Logarithms count modulo 255 ----------

  lemma MulShardSame(y: Shard, k: Byte, l: Byte)
    requires Cong(k, l, 255)
    ensures MulShard(k, y) == MulShard(l, y)
  {
    hide MulLog8, Cong;
    forall i | 0 <= i < |y| ensures MulShard(k, y)[i] == MulShard(l, y)[i] {
      MulLogCong8(y[i], k, l);
    }
  }

  lemma MulShardCong(y: Shard, k: Byte, l: Byte)
    requires Cong(k, l, 255)
    ensures MulShard(k, y) == MulShard(l, y) && MulShard(255 - k, y) == MulShard(255 - l, y)
  {
    hide MulShard, Cong;
    CongComplement(k, l);
    MulShardSame(y, k, l);
    MulShardSame(y, 255 - k, 255 - l);
  }

  lemma CongComplement(k: Byte, l: Byte)
    requires Cong(k, l, 255)
    ensures Cong(255 - k, 255 - l, 255)
  {
    CongArithmetic(255, 255, k, l, 255);
  }

  // ---------- The computation ----------

  // A shard scaled by its locator, and nothing in place of one that is missing.
  function ScaledRow(shard: Shard, loc: nat, size: nat): (r: Shard)
    ensures |shard| == size ==> |r| == size
  {
    if shard == [] then Clear(size) else MulShard(loc, shard)
  }

  // Row i of work before the inverse transform.
  function ReceivedRow(shards: seq<Shard>, dataShards: nat, m: nat, loc: seq<nat>, size: nat, i: nat): Shard
    requires dataShards <= |shards| && |loc| == 256 && m + dataShards <= 256
  {
    if i < m then (if i < |shards| - dataShards then ScaledRow(shards[dataShards + i], loc[i], size) else Clear(size))
    else if i < m + dataShards then ScaledRow(shards[i - m], loc[i], size)
    else Clear(size)
  }

  function Received(shards: seq<Shard>, dataShards: nat, m: nat, n: nat, loc: seq<nat>, size: nat): (r: seq<Shard>)
    requires dataShards <= |shards| && |loc| == 256 && m + dataShards <= 256
    ensures |r| == n
  {
    seq(n, i requires 0 <= i && dataShards <= |shards| && |loc| == 256 && m + dataShards <= 256 =>
      ReceivedRow(shards, dataShards, m, loc, size, i))
  }

  function Derivative(w: seq<Shard>, k: nat): (r: seq<Shard>)
    requires |w| == Pow2(k)
    ensures |r| == |w|
  {
    seq(|w|, j requires 0 <= j < |w| => Accumulated(w, j, k))
  }

  // Inverse transform, derivative, transform.
  function Solved(t: Leopard, w: seq<Shard>, k: nat): (r: seq<Shard>)
    requires |w| == Pow2(k) && |w| <= |t.skew| + 1
    ensures |r| == |w|
  {
    t.Fft(Derivative(t.Ifft(w, k, 0), k), k, 0)
  }

  // What a missing shard i becomes.
  function Recovered(t: Leopard, shards: seq<Shard>, dataShards: nat, m: nat, k: nat, loc: seq<nat>, size: nat,
                     i: nat): Shard
    requires dataShards <= |shards| && |loc| == 256 && m + dataShards <= Pow2(k) <= |t.skew| + 1 && Pow2(k) <= 256
    requires i < |shards| && |shards| - dataShards <= m && forall j | 0 <= j < 256 :: loc[j] < 256
  {
    var pos := PositionOf(i, dataShards, m);
    MulShard(255 - loc[pos], Solved(t, Received(shards, dataShards, m, Pow2(k), loc, size), k)[pos])
  }

  // Only the residues of the locator matter, so both forms of zero give the same shards.
  lemma RecoveredCong(t: Leopard, shards: seq<Shard>, dataShards: nat, m: nat, k: nat, loc: seq<nat>, loc': seq<nat>,
                      e: seq<nat>, size: nat, i: nat)
    requires dataShards <= |shards| && m + dataShards <= Pow2(k) <= |t.skew| + 1 && Pow2(k) <= 256
    requires i < |shards| && |shards| - dataShards <= m && Locates(loc, e) && Locates(loc', e)
    ensures Recovered(t, shards, dataShards, m, k, loc, size, i)
         == Recovered(t, shards, dataShards, m, k, loc', size, i)
  {
    hide Solved, MulShard, Locator, Pow2, Cong;
    var n := Pow2(k);
    var r, r' := Received(shards, dataShards, m, n, loc, size), Received(shards, dataShards, m, n, loc', size);
    forall j: nat | j < n ensures r[j] == r'[j] {
      SameResidue(loc, loc', e, j);
      if j < m + dataShards {
        var row := if j >= m then shards[j - m] else if j < |shards| - dataShards then shards[dataShards + j] else [];
        MulShardCong(row, loc[j], loc'[j]);
      }
    }
    assert r == r';
    var pos := PositionOf(i, dataShards, m);
    SameResidue(loc, loc', e, pos);
    MulShardCong(Solved(t, r, k)[pos], loc[pos], loc'[pos]);
  }

  lemma SameResidue(loc: seq<nat>, loc': seq<nat>, e: seq<nat>, j: nat)
    requires Locates(loc, e) && Locates(loc', e) && j < 256
    ensures loc[j] < 256 && loc'[j] < 256 && Cong(loc[j], loc'[j], 255)
  {
    hide Locator;
  }

  // ---------- Lengths and stretches of columns ----------

  lemma {:induction false} AccumulatedUniform(w: seq<Shard>, j: nat, k: nat, size: nat)
    requires j < |w| && Uniform(w, size)
    ensures |Accumulated(w, j, k)| == size
  {
    hide Xor2, Pow2;
    if k > 0 {
      AccumulatedUniform(w, j, k - 1, size);
    }
  }

  lemma {:induction false} AccumulatedCut(w: seq<Shard>, j: nat, k: nat, lo: nat, hi: nat, size: nat)
    requires j < |w| && Uniform(w, size) && lo <= hi <= size
    ensures |Accumulated(w, j, k)| == size
    ensures Accumulated(Cut(w, lo, hi), j, k) == Accumulated(w, j, k)[lo..hi]
  {
    hide Xor2, Pow2, Accumulated;
    AccumulatedUniform(w, j, k, size);
    if k > 0 {
      AccumulatedUniform(w, j, k - 1, size);
      AccumulatedCut(w, j, k - 1, lo, hi, size);
      AccumulatedStep(w, j, k, Pow2(k - 1));
      AccumulatedStep(Cut(w, lo, hi), j, k, Pow2(k - 1));
      if j + Pow2(k - 1) < |w| {
        Xor2Cut(Accumulated(w, j, k - 1), w[j + Pow2(k - 1)], lo, hi);
      }
    } else {
      AccumulatedZero(w, j);
      AccumulatedZero(Cut(w, lo, hi), j);
    }
  }

  lemma DerivativeCut(w: seq<Shard>, k: nat, lo: nat, hi: nat, size: nat)
    requires |w| == Pow2(k) && Uniform(w, size) && lo <= hi <= size
    ensures Uniform(Derivative(w, k), size)
    ensures Derivative(Cut(w, lo, hi), k) == Cut(Derivative(w, k), lo, hi)
  {
    hide Accumulated, Pow2;
    forall j | 0 <= j < |w| ensures |Derivative(w, k)[j]| == size {
      AccumulatedUniform(w, j, k, size);
    }
    forall j | 0 <= j < |w| ensures Derivative(Cut(w, lo, hi), k)[j] == Cut(Derivative(w, k), lo, hi)[j] {
      AccumulatedCut(w, j, k, lo, hi, size);
    }
  }

  lemma SolvedCut(t: Leopard, w: seq<Shard>, k: nat, lo: nat, hi: nat, size: nat)
    requires |w| == Pow2(k) && |w| <= |t.skew| + 1 && Uniform(w, size) && t.KeepsLength() && Columnwise(t)
    requires lo <= hi <= size && lo % 64 == 0 && hi % 64 == 0
    ensures Uniform(Solved(t, w, k), size)
    ensures Solved(t, Cut(w, lo, hi), k) == Cut(Solved(t, w, k), lo, hi)
  {
    hide *;
    IfftCut(t, w, k, 0, lo, hi, size);
    UniformHas(w, size);
    var x := t.Ifft(w, k, 0);
    UniformHas(x, size);
    DerivativeCut(x, k, lo, hi, size);
    var y := Derivative(x, k);
    UniformHas(y, size);
    FftCut(t, y, k, 0, lo, hi, size);
    UniformHas(t.Fft(y, k, 0), size);
    SolvedIs(t, w, k);
    SolvedIs(t, Cut(w, lo, hi), k);
  }

  lemma SolvedIs(t: Leopard, w: seq<Shard>, k: nat)
    requires |w| == Pow2(k) && |w| <= |t.skew| + 1
    ensures Solved(t, w, k) == t.Fft(Derivative(t.Ifft(w, k, 0), k), k, 0)
  {
  }

  // The columns off to end of the shards that are there.
  function CutPresent(shards: seq<Shard>, lo: nat, hi: nat): (r: seq<Shard>)
    ensures |r| == |shards|
  {
    seq(|shards|, i requires 0 <= i < |shards| => if lo < hi <= |shards[i]| then shards[i][lo..hi] else [])
  }

  ghost predicate Partial(shards: seq<Shard>, size: nat) {
    forall i | 0 <= i < |shards| :: shards[i] == [] || |shards[i]| == size
  }

  lemma ReceivedCut(shards: seq<Shard>, dataShards: nat, m: nat, n: nat, loc: seq<nat>, lo: nat, hi: nat, size: nat)
    requires dataShards <= |shards| && |loc| == 256 && m + dataShards <= 256 && Partial(shards, size) && lo < hi <= size
    ensures Uniform(Received(shards, dataShards, m, n, loc, size), size)
    ensures Received(CutPresent(shards, lo, hi), dataShards, m, n, loc, hi - lo)
         == Cut(Received(shards, dataShards, m, n, loc, size), lo, hi)
  {
    hide ReceivedRow;
    forall i | 0 <= i < n
      ensures var row := ReceivedRow(shards, dataShards, m, loc, size, i);
              |row| == size && ReceivedRow(CutPresent(shards, lo, hi), dataShards, m, loc, hi - lo, i) == row[lo..hi]
    {
      ReceivedRowCut(shards, dataShards, m, loc, lo, hi, size, i);
    }
  }

  lemma ReceivedRowCut(shards: seq<Shard>, dataShards: nat, m: nat, loc: seq<nat>, lo: nat, hi: nat, size: nat, i: nat)
    requires dataShards <= |shards| && |loc| == 256 && m + dataShards <= 256 && Partial(shards, size) && lo < hi <= size
    ensures var row := ReceivedRow(shards, dataShards, m, loc, size, i);
            |row| == size && ReceivedRow(CutPresent(shards, lo, hi), dataShards, m, loc, hi - lo, i) == row[lo..hi]
  {
    hide ScaledRow;
    if i < m {
      if i < |shards| - dataShards {
        RowCut(shards[dataShards + i], loc[i], lo, hi, size);
      }
    } else if i < m + dataShards {
      RowCut(shards[i - m], loc[i], lo, hi, size);
    }
  }

  lemma RowCut(shard: Shard, loc: nat, lo: nat, hi: nat, size: nat)
    requires (shard == [] || |shard| == size) && lo < hi <= size
    ensures |ScaledRow(shard, loc, size)| == size
    ensures ScaledRow(if lo < hi <= |shard| then shard[lo..hi] else [], loc, hi - lo)
         == ScaledRow(shard, loc, size)[lo..hi]
  {
    hide MulLog8;
  }
}
