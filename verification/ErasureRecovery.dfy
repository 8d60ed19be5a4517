// The 8-bit Leopard decoder brings back what the encoder made, from any dataShards shards.
module ErasureRecovery {

  import opened BitXor
  import opened Galois
  import opened LeopardField
  import opened LeopardTables
  import opened Shards
  import opened Transform
  import opened LeopardEncode
  import opened FormalDerivative
  import opened NovelBasis
  import opened Interpolation
  import opened Evaluation
  import opened Elements8
  import opened Codewords
  import opened RecoverySpec
  import opened ErasureLocator
  import ReedSolomon

  // ---------- The situation ----------

  // Data shards that were encoded with parityShards parity shards for m = 2^n, and transforms of
  // 2^k shards that hold them all.
  datatype Setting = Setting(t: Leopard, data: seq<Shard>, n: nat, k: nat, parityShards: nat, size: nat) {

    ghost predicate Valid() {
      && IsCodec(t) && t.Linear() && data != [] && Uniform(data, size) && n <= k
      && parityShards <= Pow2(n) && Pow2(n) + |data| <= Pow2(k) <= 256 && |t.skew| == 255
      && Fits(Pow2(n), |data|, Pow2(n), |t.skew| + 1)
    }

    function Total(): nat {
      |data| + parityShards
    }

    // All shards after encoding.
    ghost function Shards(): (r: seq<Shard>)
      requires Valid()
      ensures |r| == Total()
    {
      data + Parity(t, data, n, parityShards, size)
    }

    ghost function Word(): (r: seq<Shard>)
      requires Valid()
      ensures |r| == Pow2(k)
    {
      Codeword(t, data, n, k, size)
    }

    // Some of them are missing, but no more than there are parity shards.
    ghost predicate Left(shards: seq<Shard>)
      requires Valid()
    {
      && |shards| == Total()
      && (forall i | 0 <= i < |shards| :: shards[i] == [] || shards[i] == Shards()[i])
      && ReedSolomon.Present(shards, |shards|) >= |data|
    }
  }

  // ---------- How many positions are erased ----------

  lemma RootsCount(e: seq<nat>, upto: nat)
    requires 0 < upto
    ensures |Roots(e, -1, upto)| == |Roots(e, -1, upto - 1)| + if Erased(e, upto - 1) then 1 else 0
  {
  }

  lemma {:induction false} ParityCount(shards: seq<Shard>, d: nat, m: nat, j: nat)
    requires d <= |shards| <= d + m <= 256 && j <= |shards| - d
    ensures |Roots(Erasures(shards, d, m), -1, j)| + ReedSolomon.Present(shards, d + j)
         == j + ReedSolomon.Present(shards, d)
  {
    hide Erasures, Roots;
    var e := Erasures(shards, d, m);
    if j == 0 {
      NoRoots(e);
    } else {
      ParityCount(shards, d, m, j - 1);
      RootsCount(e, j);
      ErasureAt(shards, d, m, j - 1);
    }
  }

  lemma NoRoots(e: seq<nat>)
    ensures |Roots(e, -1, 0)| == 0
  {
  }

  lemma {:induction false} FillingCount(shards: seq<Shard>, d: nat, m: nat, j: nat)
    requires d <= |shards| <= d + m <= 256 && |shards| - d <= j <= m
    ensures |Roots(Erasures(shards, d, m), -1, j)| + ReedSolomon.Present(shards, |shards|)
         == j + ReedSolomon.Present(shards, d)
  {
    hide Erasures, Roots;
    var e := Erasures(shards, d, m);
    if j == |shards| - d {
      ParityCount(shards, d, m, j);
    } else {
      FillingCount(shards, d, m, j - 1);
      RootsCount(e, j);
      ErasureAt(shards, d, m, j - 1);
    }
  }

  lemma {:induction false} DataCount(shards: seq<Shard>, d: nat, m: nat, j: nat)
    requires d <= |shards| <= d + m <= 256 && j <= d
    ensures |Roots(Erasures(shards, d, m), -1, m + j)| + ReedSolomon.Present(shards, |shards|)
         + ReedSolomon.Present(shards, j)
         == m + j + ReedSolomon.Present(shards, d)
  {
    hide Erasures, Roots;
    var e := Erasures(shards, d, m);
    if j == 0 {
      FillingCount(shards, d, m, m);
    } else {
      DataCount(shards, d, m, j - 1);
      RootsCount(e, m + j);
      ErasureAt(shards, d, m, m + j - 1);
    }
  }

  lemma {:induction false} TailCount(shards: seq<Shard>, d: nat, m: nat, j: nat)
    requires d <= |shards| <= d + m <= j <= 256
    ensures |Roots(Erasures(shards, d, m), -1, j)| + ReedSolomon.Present(shards, |shards|) == m + d
  {
    hide Erasures, Roots;
    var e := Erasures(shards, d, m);
    if j == m + d {
      DataCount(shards, d, m, d);
    } else {
      TailCount(shards, d, m, j - 1);
      RootsCount(e, j);
      ErasureAt(shards, d, m, j - 1);
    }
  }

  // ---------- Columns of the decoder ----------

  lemma {:induction false} AccumulatedColumn<E(!new)>(t: Leopard, n: Novel<E>, read: Shard -> E, size: nat,
                                                      w: seq<Shard>, j: nat, k: nat)
    requires Reads(t, n, read, size) && j < |w| && Uniform(w, size)
    ensures |Accumulated(w, j, k)| == size
    ensures read(Accumulated(w, j, k)) == DerivedAt(n, Column(w, read), j, k)
  {
    hide Reads, Novel.Add, Pow2, Xor2;
    UniformEach(w, size, j);
    if k == 0 {
      ColumnAt(w, read, j);
    } else {
      var b := Pow2(k - 1);
      AccumulatedColumn(t, n, read, size, w, j, k - 1);
      if j + b < |w| {
        UniformEach(w, size, j + b);
        ColumnAt(w, read, j + b);
        SumOf(t, n, read, size, Accumulated(w, j, k - 1), w[j + b]);
      }
    }
  }

  lemma DerivativeColumn<E(!new)>(t: Leopard, n: Novel<E>, read: Shard -> E, size: nat, w: seq<Shard>, k: nat)
    requires Reads(t, n, read, size) && |w| == Pow2(k) && Uniform(w, size)
    ensures Uniform(Derivative(w, k), size) && Column(Derivative(w, k), read) == Derived(n, Column(w, read), k)
  {
    hide Reads, Accumulated, DerivedAt, Pow2;
    forall j | 0 <= j < |w|
      ensures |Derivative(w, k)[j]| == size && Column(Derivative(w, k), read)[j] == Derived(n, Column(w, read), k)[j]
    {
      AccumulatedColumn(t, n, read, size, w, j, k);
    }
  }

  // What the three transforms leave at a position.
  lemma SolvedEvaluates<E(!new)>(t: Leopard, n: Novel<E>, read: Shard -> E, size: nat, w: seq<Shard>, k: nat, x: nat)
    requires Reads(t, n, read, size) && |w| == Pow2(k) <= n.order && Uniform(w, size) && x < |w|
    ensures |t.skew| + 1 == n.order && |Solved(t, w, k)[x]| == size
    ensures read(Solved(t, w, k)[x]) == n.Eval(Derived(n, Column(t.Ifft(w, k, 0), read), k), k, x)
  {
    hide *;
    ReadsField(t, n, read, size);
    t.IfftUniform(w, k, 0, size);
    var coeffs := t.Ifft(w, k, 0);
    DerivativeColumn(t, n, read, size, coeffs, k);
    StartZero(k);
    BlockEnds(0, k);
    FftEvaluates(t, n, read, size, Derivative(coeffs, k), k, 0, x);
    SolvedIs(t, w, k);
  }

  // ---------- The codeword ----------

  lemma WordLengths(g: Setting)
    requires g.Valid()
    ensures Uniform(g.Word(), g.size) && |g.Word()| == Pow2(g.k)
    ensures |Parity(g.t, g.data, g.n, g.parityShards, g.size)| == g.parityShards
  {
    hide IsCodec, Fits, Leopard.Linear, Pow2, Uniform, Codeword, Parity;
    CodewordUniform(g.t, g.data, g.n, g.k, g.size);
  }

  // Every shard stands at its position of the codeword.
  lemma WordHolds(g: Setting, i: nat)
    requires g.Valid() && i < g.Total()
    ensures PositionOf(i, |g.data|, Pow2(g.n)) < Pow2(g.n) + |g.data|
    ensures g.Word()[PositionOf(i, |g.data|, Pow2(g.n))] == g.Shards()[i]
  {
    hide IsCodec, Fits, Leopard.Linear, Pow2, Uniform, Leopard.Fft, Summed, ClearRows;
    WordStart(g);
  }

  lemma WordStart(g: Setting)
    requires g.Valid()
    ensures Pow2(g.n) <= |g.t.skew| + 1
  {
    hide IsCodec, Leopard.Linear;
  }

  lemma WordEnds(g: Setting, x: nat)
    requires g.Valid() && Pow2(g.n) + |g.data| <= x < Pow2(g.k)
    ensures g.Word()[x] == Clear(g.size)
  {
    hide IsCodec, Fits, Leopard.Linear, Pow2, Uniform, Leopard.Fft, Summed;
    WordStart(g);
  }

  lemma MulOfZero(k: Byte)
    ensures MulLog8(0, k) == 0
  {
    hide CantorField.Field.Valid, CantorField.Field.Order, Field8, CantorField.Field.Log;
    Field8Valid();
  }

  lemma ScaledRowAt(shard: Shard, loc: Byte, size: nat, c: nat)
    requires (shard == [] || |shard| == size) && c < size
    ensures |ScaledRow(shard, loc, size)| == size
    ensures ScaledRow(shard, loc, size)[c] == if shard == [] then 0 else MulLog8(shard[c], loc)
  {
    hide MulLog8;
  }

  // What is received at a position: the codeword scaled by the locator, or nothing.
  lemma ReceivedColumn(g: Setting, shards: seq<Shard>, loc: seq<nat>, x: nat, c: nat)
    requires g.Valid() && g.Left(shards) && |loc| == 256 && (forall i | 0 <= i < 256 :: loc[i] < 256)
    requires x < Pow2(g.k) && c < g.size
    ensures |g.Word()[x]| == g.size
    ensures var row := ReceivedRow(shards, |g.data|, Pow2(g.n), loc, g.size, x);
      |row| == g.size
      && row[c] == if Erased(Erasures(shards, |g.data|, Pow2(g.n)), x) then 0 else MulLog8(g.Word()[x][c], loc[x])
  {
    hide IsCodec, Fits, Leopard.Linear, Pow2, Uniform, MulLog8, Setting.Word, Setting.Shards, Erasures, ScaledRow;
    var d, m := |g.data|, Pow2(g.n);
    WordLengths(g);
    UniformEach(g.Word(), g.size, x);
    ErasureAt(shards, d, m, x);
    if x < g.parityShards {
      ShardHolds(g, shards, d + x, x);
      ScaledRowAt(shards[d + x], loc[x], g.size, c);
    } else if m <= x < m + d {
      ShardHolds(g, shards, x - m, x);
      ScaledRowAt(shards[x - m], loc[x], g.size, c);
    } else if m + d <= x {
      WordEnds(g, x);
      MulOfZero(loc[x]);
    }
  }

  lemma ShardHolds(g: Setting, shards: seq<Shard>, i: nat, x: nat)
    requires g.Valid() && g.Left(shards) && i < g.Total() && x == PositionOf(i, |g.data|, Pow2(g.n)) < Pow2(g.k)
    ensures shards[i] == [] || shards[i] == g.Word()[x]
  {
    hide IsCodec, Fits, Leopard.Linear, Pow2, Uniform, Setting.Word, Setting.Shards;
    WordHolds(g, i);
  }

  lemma ErasuresZeroOne(shards: seq<Shard>, d: nat, m: nat)
    requires d <= |shards|
    ensures ZeroOne(Erasures(shards, d, m))
  {
  }

  // ---------- Recovery ----------

  // The product that is received, in terms of the locator without position pos.
  lemma ReceivedValue(n: Novel<Byte>, e: seq<nat>, loc: seq<nat>, pos: Byte, x: Byte, word: Byte, row: Byte)
    requires OfCodec(n) && ZeroOne(e) && Locates(loc, e) && Erased(e, pos) && loc[x] < 256
    requires row == if Erased(e, x) then 0 else MulLog8(word, loc[x])
    ensures row == n.Times(n.Times(n.Add(n.At(x), n.At(pos)), Prod(n, Roots(e, pos, 256), x)), word)
  {
    hide *;
    CodecReady(n);
    var product := Prod(n, Roots(e, pos, 256), x);
    if Erased(e, x) {
      if x == pos {
        n.AddLaws(n.At(x), n.At(x), n.At(x));
        n.TimesLaws(product, n.zero, n.zero);
      } else {
        ProdVanishes(n, e, pos, 256, x);
        n.TimesLaws(n.Add(n.At(x), n.At(pos)), n.zero, n.zero);
      }
      n.TimesLaws(word, n.zero, n.zero);
    } else {
      LocatorIsProduct(n, e, loc, x, word);
      SkipNothing(e, x, 256);
      SkipOne(n, e, pos, 256, x);
      n.TimesLaws(word, n.Times(n.Add(n.At(x), n.At(pos)), product), word);
    }
  }

  lemma Unscaled(n: Novel<Byte>, e: seq<nat>, loc: seq<nat>, pos: Byte, word: Byte, solved: Byte)
    requires OfCodec(n) && ZeroOne(e) && Locates(loc, e)
    requires solved == n.Times(Prod(n, Roots(e, pos, 256), pos), word)
    ensures loc[pos] < 256 && MulLog8(solved, 255 - loc[pos]) == word
  {
    hide *;
    CodecReady(n);
    LocatesAt(loc, e, pos);
    LocatorIsProduct(n, e, loc, pos, word);
    n.TimesLaws(word, Prod(n, Roots(e, pos, 256), pos), word);
    ScalingRestores8(word, loc[pos]);
  }

  lemma CodewordDegree(g: Setting, n: Novel<Byte>, c: nat)
    requires g.Valid() && OfCodec(n) && c < g.size
    ensures Uniform(g.Word(), g.size) && Pow2(g.n) <= Pow2(g.k)
    ensures n.Below(Column(g.t.Ifft(g.Word(), g.k, 0), ByteOf(c)), Pow2(g.k) - Pow2(g.n))
  {
    hide *;
    SettingParts(g);
    WordLengths(g);
    ReadsBytes(g.t, n, c, g.size);
    WordIs(g);
    WordDegree(g.t, n, ByteOf(c), g.data, g.n, g.k, g.size);
  }

  lemma WordIs(g: Setting)
    requires g.Valid()
    ensures g.data != [] && Fits(Pow2(g.n), |g.data|, Pow2(g.n), |g.t.skew| + 1) && g.n <= g.k
    ensures Pow2(g.n) + |g.data| <= Pow2(g.k) && g.Word() == Codeword(g.t, g.data, g.n, g.k, g.size)
  {
    hide IsCodec, Fits, Leopard.Linear, Pow2, Uniform, Codeword;
  }

  lemma RoomForLocator(g: Setting, shards: seq<Shard>, pos: nat)
    requires g.Valid() && g.Left(shards) && pos < 256 && Erased(Erasures(shards, |g.data|, Pow2(g.n)), pos)
    ensures |Roots(Erasures(shards, |g.data|, Pow2(g.n)), pos, 256)| < Pow2(g.n)
  {
    hide IsCodec, Fits, Leopard.Linear, Pow2, Uniform, Erasures, Roots, Setting.Shards;
    TailCount(shards, |g.data|, Pow2(g.n), 256);
    var n := TheField();
    CodecReady(n);
    SkipOne(n, Erasures(shards, |g.data|, Pow2(g.n)), pos, 256, 0);
  }

  lemma MissingPosition(g: Setting, shards: seq<Shard>, i: nat)
    requires g.Valid() && g.Left(shards) && i < |shards| && shards[i] == []
    ensures |g.data| <= |shards| == g.Total() <= |g.data| + Pow2(g.n) <= Pow2(g.k) <= 256
    ensures PositionOf(i, |g.data|, Pow2(g.n)) < Pow2(g.k)
    ensures Erased(Erasures(shards, |g.data|, Pow2(g.n)), PositionOf(i, |g.data|, Pow2(g.n)))
  {
    hide IsCodec, Fits, Leopard.Linear, Pow2, Uniform, Setting.Shards, Erasures;
    ErasureAt(shards, |g.data|, Pow2(g.n), PositionOf(i, |g.data|, Pow2(g.n)));
  }

  lemma SettingParts(g: Setting)
    requires g.Valid()
    ensures IsCodec(g.t) && g.t.Linear() && |g.t.skew| == 255 && Uniform(g.data, g.size)
    ensures Pow2(g.n) <= Pow2(g.k) <= 256
    ensures Pow2(g.n) + |g.data| <= Pow2(g.k) && g.parityShards <= Pow2(g.n)
  {
    hide IsCodec, Fits, Leopard.Linear, Pow2, Uniform;
  }

  lemma ReceivedIs(shards: seq<Shard>, d: nat, m: nat, n: nat, loc: seq<nat>, size: nat, x: nat)
    requires d <= |shards| && |loc| == 256 && m + d <= 256 && x < n
    ensures Received(shards, d, m, n, loc, size)[x] == ReceivedRow(shards, d, m, loc, size, x)
  {
    hide ReceivedRow;
  }

  // The polynomial that is received is the codeword's times the locator.
  lemma ReceivedAt(g: Setting, n: Novel<Byte>, shards: seq<Shard>, loc: seq<nat>, pos: Byte, x: Byte, c: nat)
    requires g.Valid() && OfCodec(n) && g.Left(shards) && c < g.size && Drop(x, g.k) == 0
    requires |loc| == 256 && |g.data| <= |shards| && Pow2(g.n) + |g.data| <= 256
    requires Locates(loc, Erasures(shards, |g.data|, Pow2(g.n)))
    requires Uniform(Received(shards, |g.data|, Pow2(g.n), Pow2(g.k), loc, g.size), g.size)
    requires Erased(Erasures(shards, |g.data|, Pow2(g.n)), pos)
    ensures |g.t.skew| == 255 && Pow2(g.k) <= 256
    ensures var fs := Column(g.t.Ifft(g.Word(), g.k, 0), ByteOf(c));
            var r := Received(shards, |g.data|, Pow2(g.n), Pow2(g.k), loc, g.size);
            var gs := Column(g.t.Ifft(r, g.k, 0), ByteOf(c));
            var product := Prod(n, Roots(Erasures(shards, |g.data|, Pow2(g.n)), pos, 256), x);
            n.Eval(gs, g.k, x) == n.Times(n.Times(n.Add(n.At(x), n.At(pos)), product), n.Eval(fs, g.k, x))
  {
    hide *;
    var d, m, k := |g.data|, Pow2(g.n), g.k;
    var e := Erasures(shards, d, m);
    var r := Received(shards, d, m, Pow2(k), loc, g.size);
    SettingParts(g);
    BelowPower(x, k);
    WordLengths(g);
    LocatesBytes(loc, e);
    ErasuresZeroOne(shards, d, m);
    CodecReady(n);
    ReadsBytes(g.t, n, c, g.size);
    UniformEach(g.Word(), g.size, x);
    UniformEach(r, g.size, x);
    CoefficientsFit(g.t, n, ByteOf(c), g.size, g.Word(), k, x);
    CoefficientsFit(g.t, n, ByteOf(c), g.size, r, k, x);
    ByteOfAt(c, g.Word()[x]);
    ByteOfAt(c, r[x]);
    ReceivedColumn(g, shards, loc, x, c);
    ReceivedIs(shards, d, m, Pow2(k), loc, g.size, x);
    ReceivedValue(n, e, loc, pos, x, g.Word()[x][c], r[x][c]);
  }

  // A missing shard in one column.
  lemma RecoversColumn(g: Setting, n: Novel<Byte>, shards: seq<Shard>, loc: seq<nat>, i: nat, c: nat)
    requires g.Valid() && OfCodec(n) && g.Left(shards) && i < |shards| && shards[i] == [] && c < g.size
    requires Locates(loc, Erasures(shards, |g.data|, Pow2(g.n)))
    requires Uniform(Received(shards, |g.data|, Pow2(g.n), Pow2(g.k), loc, g.size), g.size)
    ensures var pos := PositionOf(i, |g.data|, Pow2(g.n));
            var solved := Solved(g.t, Received(shards, |g.data|, Pow2(g.n), Pow2(g.k), loc, g.size), g.k);
            && pos < Pow2(g.k) && loc[pos] < 256 && |solved[pos]| == |g.Word()[pos]| == g.size
            && MulLog8(solved[pos][c], 255 - loc[pos]) == g.Word()[pos][c]
  {
    hide *;
    var d, m, k := |g.data|, Pow2(g.n), g.k;
    SettingParts(g);
    MissingPosition(g, shards, i);
    LocatesBytes(loc, Erasures(shards, d, m));
    var e := Erasures(shards, d, m);
    var r := Received(shards, d, m, Pow2(k), loc, g.size);
    var pos := PositionOf(i, d, m);
    CodecReady(n);
    ErasuresZeroOne(shards, d, m);
    WordLengths(g);
    UniformEach(g.Word(), g.size, pos);
    ReadsBytes(g.t, n, c, g.size);
    var fs, gs := Column(g.t.Ifft(g.Word(), k, 0), ByteOf(c)), Column(g.t.Ifft(r, k, 0), ByteOf(c));
    CodewordDegree(g, n, c);
    RootsNumbers(e, pos, 256, 256);
    RoomForLocator(g, shards, pos);
    forall x: nat ensures x < n.order && Drop(x, k) == 0 ==>
      n.Eval(gs, k, x)
      == n.Times(n.Times(n.Add(n.At(x), n.At(pos)), Prod(n, Roots(e, pos, 256), x)), n.Eval(fs, k, x))
    {
      if x < n.order && Drop(x, k) == 0 {
        ReceivedAt(g, n, shards, loc, pos, x, c);
      }
    }
    BelowPower(pos, k);
    Interpolates(n, fs, gs, k, Pow2(k) - m, Roots(e, pos, 256), pos);
    SolvedEvaluates(g.t, n, ByteOf(c), g.size, r, k, pos);
    CoefficientsFit(g.t, n, ByteOf(c), g.size, g.Word(), k, pos);
    ByteOfAt(c, Solved(g.t, r, k)[pos]);
    ByteOfAt(c, g.Word()[pos]);
    Unscaled(n, e, loc, pos, g.Word()[pos][c], Solved(g.t, r, k)[pos][c]);
  }

  lemma ReceivedUniform(g: Setting, shards: seq<Shard>, loc: seq<nat>)
    requires g.Valid() && g.Left(shards) && |loc| == 256 && forall i | 0 <= i < 256 :: loc[i] < 256
    ensures |g.data| <= |shards| && Pow2(g.n) + |g.data| <= 256
    ensures Uniform(Received(shards, |g.data|, Pow2(g.n), Pow2(g.k), loc, g.size), g.size)
  {
    hide IsCodec, Fits, Leopard.Linear, Pow2, Setting.Shards, ReceivedRow;
    var r := Received(shards, |g.data|, Pow2(g.n), Pow2(g.k), loc, g.size);
    forall x | 0 <= x < |r| ensures |r[x]| == g.size {
      ReceivedIs(shards, |g.data|, Pow2(g.n), Pow2(g.k), loc, g.size, x);
      RowLength(g, shards, loc, x);
    }
  }

  lemma RowLength(g: Setting, shards: seq<Shard>, loc: seq<nat>, x: nat)
    requires g.Valid() && g.Left(shards) && |loc| == 256 && x < Pow2(g.k)
    ensures |ReceivedRow(shards, |g.data|, Pow2(g.n), loc, g.size, x)| == g.size
  {
    hide IsCodec, Fits, Leopard.Linear, Pow2, Uniform, Setting.Word, Setting.Shards, MulLog8;
    WordLengths(g);
    UniformEach(g.Word(), g.size, x);
    if x < g.parityShards {
      ShardHolds(g, shards, |g.data| + x, x);
    } else if Pow2(g.n) <= x < Pow2(g.n) + |g.data| {
      ShardHolds(g, shards, x - Pow2(g.n), x);
    }
  }

  // Whatever shards are missing, the decoder's formula gives them back.
  lemma Recovers(g: Setting, shards: seq<Shard>, loc: seq<nat>, i: nat)
    requires g.Valid() && g.Left(shards) && i < |shards| && shards[i] == []
    requires Locates(loc, Erasures(shards, |g.data|, Pow2(g.n)))
    ensures |g.data| <= |shards| <= |g.data| + Pow2(g.n) && |loc| == 256 && forall j | 0 <= j < 256 :: loc[j] < 256
    ensures Recovered(g.t, shards, |g.data|, Pow2(g.n), g.k, loc, g.size, i) == g.Shards()[i]
  {
    hide *;
    var d, m, k := |g.data|, Pow2(g.n), g.k;
    SettingParts(g);
    MissingPosition(g, shards, i);
    LocatesBytes(loc, Erasures(shards, d, m));
    ReceivedUniform(g, shards, loc);
    var pos := PositionOf(i, d, m);
    var row := Solved(g.t, Received(shards, d, m, Pow2(k), loc, g.size), k)[pos];
    var n := TheField();
    WordLengths(g);
    UniformEach(g.Word(), g.size, pos);
    WordHolds(g, i);
    RecoveredIs(g.t, shards, d, m, k, loc, g.size, i);
    RowSize(g, shards, loc, pos);
    forall c | 0 <= c < g.size ensures MulShard(255 - loc[pos], row)[c] == g.Word()[pos][c] {
      RecoversColumn(g, n, shards, loc, i, c);
      MulShardByte(255 - loc[pos], row, c);
    }
    MulShardLength(255 - loc[pos], row);
  }

  lemma RowSize(g: Setting, shards: seq<Shard>, loc: seq<nat>, pos: nat)
    requires g.Valid() && pos < Pow2(g.k) && |g.data| <= |shards| && |loc| == 256 && Pow2(g.n) + |g.data| <= 256
    requires Uniform(Received(shards, |g.data|, Pow2(g.n), Pow2(g.k), loc, g.size), g.size)
    ensures |g.t.skew| == 255 && Pow2(g.k) <= 256
    ensures |Solved(g.t, Received(shards, |g.data|, Pow2(g.n), Pow2(g.k), loc, g.size), g.k)[pos]| == g.size
  {
    hide *;
    SettingParts(g);
    var r := Received(shards, |g.data|, Pow2(g.n), Pow2(g.k), loc, g.size);
    SolvedUniform(g.t, r, g.k, g.size);
    UniformEach(Solved(g.t, r, g.k), g.size, pos);
  }

  lemma SolvedUniform(t: Leopard, w: seq<Shard>, k: nat, size: nat)
    requires |w| == Pow2(k) <= |t.skew| + 1 && Uniform(w, size)
    ensures Uniform(Solved(t, w, k), size)
  {
    hide *;
    t.IfftUniform(w, k, 0, size);
    SolvedIs(t, w, k);
    DerivativeUniform(t.Ifft(w, k, 0), k, size);
    t.FftUniform(Derivative(t.Ifft(w, k, 0), k), k, 0, size);
  }

  lemma DerivativeUniform(w: seq<Shard>, k: nat, size: nat)
    requires |w| == Pow2(k) && Uniform(w, size)
    ensures Uniform(Derivative(w, k), size)
  {
    hide Accumulated, Pow2;
    forall j | 0 <= j < |w| ensures |Derivative(w, k)[j]| == size {
      AccumulatedUniform(w, j, k, size);
    }
  }

  lemma RecoveredIs(t: Leopard, shards: seq<Shard>, d: nat, m: nat, k: nat, loc: seq<nat>, size: nat, i: nat)
    requires d <= |shards| && |loc| == 256 && m + d <= Pow2(k) <= |t.skew| + 1 && Pow2(k) <= 256
    requires i < |shards| && |shards| - d <= m && forall j | 0 <= j < 256 :: loc[j] < 256
    ensures PositionOf(i, d, m) < Pow2(k)
    ensures Recovered(t, shards, d, m, k, loc, size, i)
         == MulShard(255 - loc[PositionOf(i, d, m)],
                     Solved(t, Received(shards, d, m, Pow2(k), loc, size), k)[PositionOf(i, d, m)])
  {
    hide Solved, Received, MulShard, Pow2;
  }

  lemma MulShardByte(log: Byte, y: Shard, c: nat)
    requires c < |y|
    ensures MulShard(log, y)[c] == MulLog8(y[c], log)
  {
    hide MulLog8;
  }

  lemma MulShardLength(log: Byte, y: Shard)
    ensures |MulShard(log, y)| == |y|
  {
    hide MulLog8;
  }
}
