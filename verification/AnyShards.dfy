// What Encode of either width makes of the data: the shards are the values of one polynomial of
// low degree, and any dataShards of them determine the data.
module AnyShards {

  import opened BitXor
  import opened Shards
  import opened Transform
  import opened LeopardEncode
  import opened NovelBasis
  import opened Interpolation
  import opened Evaluation
  import opened Codewords
  import opened RecoverySpec
  import opened Pigeonhole

  // ---------- Polynomials with many roots ----------

  // The numbers below upto that are not known, in order.
  ghost function Outside(known: set<nat>, upto: nat): seq<nat> {
    if upto == 0 then [] else Outside(known, upto - 1) + (if upto - 1 in known then [] else [upto - 1])
  }

  lemma {:induction false} OutsideIs(known: set<nat>, upto: nat)
    ensures Numbers(Outside(known, upto), upto)
    ensures forall x: nat :: x in Outside(known, upto) <==> x < upto && x !in known
  {
    if upto > 0 {
      OutsideIs(known, upto - 1);
    }
  }

  lemma {:induction false} OutsideCount(known: set<nat>, upto: nat)
    requires forall x | x in known :: x < upto
    ensures |Outside(known, upto)| + |known| == upto
  {
    if upto == 0 {
      assert known == {};
    } else if upto - 1 in known {
      var rest := known - {upto - 1};
      assert known == rest + {upto - 1};
      OutsideCount(rest, upto - 1);
      OutsideSame(known, rest, upto - 1);
    } else {
      OutsideCount(known, upto - 1);
    }
  }

  lemma {:induction false} OutsideSame(a: set<nat>, b: set<nat>, upto: nat)
    requires forall x | 0 <= x < upto :: x in a <==> x in b
    ensures Outside(a, upto) == Outside(b, upto)
  {
    if upto > 0 {
      OutsideSame(a, b, upto - 1);
    }
  }

  lemma FactorZero<E(!new)>(f: Novel<E>, x: nat, y: nat)
    requires f.Ready() && x < f.order && y < f.order
    ensures f.Add(f.At(x), f.At(y)) == f.zero <==> x == y
  {
    hide Xor, Novel.Ready, Novel.At, Novel.Add;
    f.Points(x, y);
    f.Points(Xor(x, y), 0);
    XorIsZero(x, y);
    XorSelf(x);
  }

  // A product of differences is zero at its own numbers and nowhere else.
  lemma {:induction false} ProdZero<E(!new)>(f: Novel<E>, js: seq<nat>, x: nat)
    requires f.Ready() && Numbers(js, f.order) && x < f.order
    ensures Prod(f, js, x) == f.zero <==> x in js
  {
    hide Novel.Ready, Novel.Times, Novel.Add, Novel.At;
    if js == [] {
      f.PointOne();
      f.Points(1, 0);
    } else {
      var last := |js| - 1;
      var p, d := Prod(f, js[..last], x), f.Add(f.At(x), f.At(js[last]));
      ProdZero(f, js[..last], x);
      FactorZero(f, x, js[last]);
      f.TimesLaws(p, d, d);
      f.TimesLaws(d, p, p);
      assert js == js[..last] + [js[last]];
      if f.Times(p, d) == f.zero {
        f.NoDivisors(p, d);
      }
    }
  }

  lemma ZerosEval<E(!new)>(f: Novel<E>, k: nat, x: nat)
    requires f.Ready()
    ensures f.Eval(f.Zeros(Pow2(k)), k, x) == f.zero
  {
    hide *;
    var z := f.Zeros(Pow2(k));
    ZerosSum(f, Pow2(k));
    f.EvalSum(z, z, k, x);
    f.AddLaws(f.Eval(z, k, x), f.zero, f.zero);
  }

  lemma ZerosSum<E(!new)>(f: Novel<E>, n: nat)
    requires f.Ready()
    ensures f.Sum(f.Zeros(n), f.Zeros(n)) == f.Zeros(n)
  {
    hide Novel.Ready, Novel.Add;
    f.AddLaws(f.zero, f.zero, f.zero);
  }

  lemma ZerosDerived<E(!new)>(f: Novel<E>, n: nat, k: nat)
    requires f.Ready()
    ensures Derived(f, f.Zeros(n), k) == f.Zeros(n)
  {
    hide Novel.Ready, DerivedAt;
    forall j | 0 <= j < n ensures DerivedAt(f, f.Zeros(n), j, k) == f.zero {
      ZeroDerivedAt(f, n, j, k);
    }
  }

  lemma {:induction false} ZeroDerivedAt<E(!new)>(f: Novel<E>, n: nat, j: nat, k: nat)
    requires f.Ready() && j < n
    ensures DerivedAt(f, f.Zeros(n), j, k) == f.zero
  {
    hide Novel.Ready, Novel.Add, Pow2;
    f.AddLaws(f.zero, f.zero, f.zero);
    if k > 0 {
      ZeroDerivedAt(f, n, j, k - 1);
    }
  }

  // The locator of the other numbers, times the polynomial, is zero everywhere.
  lemma LocatorKills<E(!new)>(f: Novel<E>, g: seq<E>, k: nat, known: set<nat>, pos: nat, x: nat)
    requires f.Ready() && |g| == Pow2(k) <= f.order && pos < Pow2(k) && x < f.order && Drop(x, k) == 0
    requires forall y | y in known :: y < Pow2(k) && f.Eval(g, k, y) == f.zero
    ensures f.Times(f.Times(f.Add(f.At(x), f.At(pos)), Prod(f, Outside(known + {pos}, Pow2(k)), x)), f.Eval(g, k, x))
         == f.zero
  {
    hide *;
    var js := Outside(known + {pos}, Pow2(k));
    OutsideIs(known + {pos}, Pow2(k));
    NumbersMore(js, Pow2(k), f.order);
    BelowPower(x, k);
    var d, p, v := f.Add(f.At(x), f.At(pos)), Prod(f, js, x), f.Eval(g, k, x);
    FactorZero(f, x, pos);
    ProdZero(f, js, x);
    f.TimesLaws(d, p, p);
    f.TimesLaws(p, d, d);
    f.TimesLaws(v, f.zero, f.zero);
    f.TimesLaws(f.Times(d, p), f.zero, f.zero);
  }

  lemma NumbersMore(js: seq<nat>, a: nat, b: nat)
    requires Numbers(js, a) && a <= b
    ensures Numbers(js, b)
  {
  }

  lemma ZeroAt<E(!new)>(f: Novel<E>, g: seq<E>, k: nat, d: nat, known: set<nat>, pos: nat)
    requires f.Ready() && |g| == Pow2(k) <= f.order && f.Below(g, d) && |known| >= d && pos < Pow2(k)
    requires forall y | y in known :: y < Pow2(k) && f.Eval(g, k, y) == f.zero
    ensures f.Eval(g, k, pos) == f.zero
  {
    hide *;
    if pos !in known {
      var js := Outside(known + {pos}, Pow2(k));
      OutsideIs(known + {pos}, Pow2(k));
      OutsideCount(known + {pos}, Pow2(k));
      assert |known + {pos}| == |known| + 1;
      NumbersMore(js, Pow2(k), f.order);
      var z := f.Zeros(Pow2(k));
      forall x: nat ensures x < f.order && Drop(x, k) == 0 ==>
        f.Eval(z, k, x) == f.Times(f.Times(f.Add(f.At(x), f.At(pos)), Prod(f, js, x)), f.Eval(g, k, x))
      {
        if x < f.order && Drop(x, k) == 0 {
          ZerosEval(f, k, x);
          LocatorKills(f, g, k, known, pos, x);
        }
      }
      BelowPower(pos, k);
      Interpolates(f, g, z, k, d, js, pos);
      ZerosDerived(f, Pow2(k), k);
      ZerosEval(f, k, pos);
      ProdZero(f, js, pos);
      f.NoDivisors(Prod(f, js, pos), f.Eval(g, k, pos));
    }
  }

  // A polynomial of degree below d with d roots is zero.
  lemma RootsForceZero<E(!new)>(f: Novel<E>, g: seq<E>, k: nat, d: nat, known: set<nat>)
    requires f.Ready() && |g| == Pow2(k) <= f.order && f.Below(g, d) && |known| >= d
    requires forall y | y in known :: y < Pow2(k) && f.Eval(g, k, y) == f.zero
    ensures g == f.Zeros(|g|)
  {
    hide *;
    forall x: nat ensures x < f.order && Drop(x, k) == 0 ==> f.Eval(g, k, x) == f.Eval(f.Zeros(|g|), k, x) {
      if x < f.order && Drop(x, k) == 0 {
        BelowPower(x, k);
        ZeroAt(f, g, k, d, known, x);
        ZerosEval(f, k, x);
      }
    }
    SameValues(f, g, f.Zeros(|g|), k);
  }

  // Two polynomials of degree below d with the same values at d numbers are the same.
  lemma ValuesDetermine<E(!new)>(f: Novel<E>, u: seq<E>, v: seq<E>, k: nat, d: nat, known: set<nat>)
    requires f.Ready() && |u| == |v| == Pow2(k) <= f.order && f.Below(u, d) && f.Below(v, d) && |known| >= d
    requires forall y | y in known :: y < Pow2(k) && f.Eval(u, k, y) == f.Eval(v, k, y)
    ensures u == v
  {
    hide *;
    forall y | y in known ensures y < Pow2(k) && f.Eval(f.Sum(u, v), k, y) == f.zero {
      f.EvalSum(u, v, k, y);
      f.AddLaws(f.Eval(u, k, y), f.zero, f.zero);
    }
    f.SumBelow(u, v, d);
    RootsForceZero(f, f.Sum(u, v), k, d, known);
    SumIsZero(f, u, v);
  }

  // ---------- Encoding ----------

  // The counts that encoding with these parameters works for.
  ghost predicate Encodes(t: Leopard, data: seq<Shard>, n: nat, k: nat, parityShards: nat, size: nat) {
    && data != [] && Fits(Pow2(n), |data|, Pow2(n), |t.skew| + 1) && parityShards <= Pow2(n) && n <= k
    && Pow2(n) + |data| <= Pow2(k) <= |t.skew| + 1 && t.Linear() && Uniform(data, size)
  }

  lemma EncodesParts(t: Leopard, data: seq<Shard>, n: nat, k: nat, parityShards: nat, size: nat)
    requires Encodes(t, data, n, k, parityShards, size)
    ensures data != [] && Fits(Pow2(n), |data|, Pow2(n), |t.skew| + 1) && parityShards <= Pow2(n) && n <= k
    ensures Pow2(n) + |data| <= Pow2(k) <= |t.skew| + 1 && t.Linear() && Uniform(data, size)
  {
    hide Fits, Leopard.Linear, Uniform, Pow2;
  }

  // All shards after encoding.
  ghost function Encoded(t: Leopard, data: seq<Shard>, n: nat, k: nat, parityShards: nat, size: nat): (r: seq<Shard>)
    requires Encodes(t, data, n, k, parityShards, size)
    ensures |r| == |data| + parityShards
  {
    EncodesParts(t, data, n, k, parityShards, size);
    data + Parity(t, data, n, parityShards, size)
  }

  // Every shard stands at its position of the codeword, and zeros behind them.
  lemma WordRows(t: Leopard, data: seq<Shard>, n: nat, k: nat, parityShards: nat, size: nat)
    requires Encodes(t, data, n, k, parityShards, size)
    ensures data != [] && Fits(Pow2(n), |data|, Pow2(n), |t.skew| + 1) && Pow2(n) + |data| <= Pow2(k)
    ensures forall i | 0 <= i < |data| + parityShards ::
      PositionOf(i, |data|, Pow2(n)) < Pow2(k)
      && Codeword(t, data, n, k, size)[PositionOf(i, |data|, Pow2(n))] == Encoded(t, data, n, k, parityShards, size)[i]
    ensures forall x | Pow2(n) + |data| <= x < Pow2(k) :: Codeword(t, data, n, k, size)[x] == Clear(size)
    ensures Encoded(t, data, n, k, parityShards, size)[..|data|] == data
  {
    hide Leopard.Linear, Uniform, Pow2, Fits, Leopard.Fft, Summed;
    CodewordParts(t, data, n, k, size);
  }

  // p is a polynomial without the 2^n highest coefficients whose values are read from the data
  // shards at the numbers from 2^n on, and are zero behind them.
  ghost predicate Carries<E(!new)>(f: Novel<E>, read: Shard -> E, data: seq<Shard>, n: nat, k: nat, p: seq<E>)
    requires Pow2(n) <= Pow2(k)
  {
    && |p| == Pow2(k) && f.Below(p, Pow2(k) - Pow2(n))
    && (forall i | 0 <= i < |data| :: f.Eval(p, k, Pow2(n) + i) == read(data[i]))
    && (forall x: nat | Pow2(n) + |data| <= x < Pow2(k) :: f.Eval(p, k, x) == f.zero)
  }

  // Its values at the numbers from 0 on are read from the parity shards.
  ghost predicate GivesParity<E(!new)>(t: Leopard, f: Novel<E>, read: Shard -> E, data: seq<Shard>, n: nat, k: nat,
                                       parityShards: nat, size: nat, p: seq<E>)
    requires Encodes(t, data, n, k, parityShards, size) && |p| == Pow2(k)
  {
    forall i | 0 <= i < parityShards ::
      f.Eval(p, k, i) == read(Encoded(t, data, n, k, parityShards, size)[|data| + i])
  }

  // There is one such polynomial, and it gives the parity shards.
  lemma ParityEvaluates<E(!new)>(t: Leopard, f: Novel<E>, read: Shard -> E, data: seq<Shard>, n: nat, k: nat,
                                 parityShards: nat, size: nat)
    returns (p: seq<E>)
    requires Reads(t, f, read, size) && Encodes(t, data, n, k, parityShards, size)
    ensures Pow2(n) <= Pow2(k) && Carries(f, read, data, n, k, p)
    ensures GivesParity(t, f, read, data, n, k, parityShards, size, p)
    ensures forall p': seq<E> | Carries(f, read, data, n, k, p') :: p' == p
  {
    hide *;
    ReadsField(t, f, read, size);
    EncodesParts(t, data, n, k, parityShards, size);
    CodewordUniform(t, data, n, k, size);
    WordDegree(t, f, read, data, n, k, size);
    WordRows(t, data, n, k, parityShards, size);
    var w := Codeword(t, data, n, k, size);
    p := Column(t.Ifft(w, k, 0), read);
    forall x: nat | x < Pow2(k) ensures f.Eval(p, k, x) == read(w[x]) {
      CoefficientsFit(t, f, read, size, w, k, x);
    }
    WordCarries(f, read, data, n, k, p, w, size, Encoded(t, data, n, k, parityShards, size));
    assert GivesParity(t, f, read, data, n, k, parityShards, size, p) by {
      ParityRows(t, f, read, data, n, k, parityShards, size, p, w);
    }
    forall p': seq<E> | Carries(f, read, data, n, k, p') ensures p' == p {
      CarriedOnce(f, read, data, n, k, p, p');
    }
  }

  lemma WordCarries<E(!new)>(f: Novel<E>, read: Shard -> E, data: seq<Shard>, n: nat, k: nat, p: seq<E>, w: seq<Shard>,
                             size: nat, all: seq<Shard>)
    requires Pow2(n) <= Pow2(k) && |p| == |w| == Pow2(k) && f.Below(p, Pow2(k) - Pow2(n)) && read(Clear(size)) == f.zero
    requires forall x: nat | x < Pow2(k) :: f.Eval(p, k, x) == read(w[x])
    requires |data| <= |all| && all[..|data|] == data
    requires forall i | 0 <= i < |all| ::
      PositionOf(i, |data|, Pow2(n)) < Pow2(k) && w[PositionOf(i, |data|, Pow2(n))] == all[i]
    requires forall x | Pow2(n) + |data| <= x < Pow2(k) :: w[x] == Clear(size)
    ensures Carries(f, read, data, n, k, p)
  {
    hide Novel.Eval, Pow2, Novel.Below;
    forall i | 0 <= i < |data| ensures f.Eval(p, k, Pow2(n) + i) == read(data[i]) {
      assert all[i] == all[..|data|][i];
      assert PositionOf(i, |data|, Pow2(n)) == Pow2(n) + i;
    }
  }

  lemma ParityRows<E(!new)>(t: Leopard, f: Novel<E>, read: Shard -> E, data: seq<Shard>, n: nat, k: nat,
                            parityShards: nat, size: nat, p: seq<E>, w: seq<Shard>)
    requires Encodes(t, data, n, k, parityShards, size) && |p| == |w| == Pow2(k)
    requires forall x: nat | x < Pow2(k) :: f.Eval(p, k, x) == read(w[x])
    requires forall i | 0 <= i < |data| + parityShards ::
      PositionOf(i, |data|, Pow2(n)) < Pow2(k)
      && w[PositionOf(i, |data|, Pow2(n))] == Encoded(t, data, n, k, parityShards, size)[i]
    ensures GivesParity(t, f, read, data, n, k, parityShards, size, p)
  {
    hide Novel.Eval, Pow2, Encodes, Encoded;
    forall i | 0 <= i < parityShards
      ensures f.Eval(p, k, i) == read(Encoded(t, data, n, k, parityShards, size)[|data| + i])
    {
      assert PositionOf(|data| + i, |data|, Pow2(n)) == i;
    }
  }

  lemma CarriedOnce<E(!new)>(f: Novel<E>, read: Shard -> E, data: seq<Shard>, n: nat, k: nat, p: seq<E>, p': seq<E>)
    requires f.Ready() && Pow2(n) <= Pow2(k) <= f.order
    requires Carries(f, read, data, n, k, p) && Carries(f, read, data, n, k, p')
    ensures p' == p
  {
    hide Novel.Eval, Novel.Ready, Pow2, Novel.Below;
    var known := Range(Pow2(n), Pow2(k) - Pow2(n));
    forall y | y in known ensures f.Eval(p, k, y) == f.Eval(p', k, y) {
      if y < Pow2(n) + |data| {
        assert f.Eval(p, k, Pow2(n) + (y - Pow2(n))) == read(data[y - Pow2(n)]);
      }
    }
    ValuesDetermine(f, p', p, k, Pow2(k) - Pow2(n), known);
  }

  // ---------- Any dataShards shards ----------

  ghost function Positions(kept: set<nat>, d: nat, m: nat): set<nat> {
    set i | i in kept :: PositionOf(i, d, m)
  }

  lemma {:induction false} PositionsCount(kept: set<nat>, d: nat, m: nat)
    requires forall i | i in kept :: i < d + m
    ensures |Positions(kept, d, m)| == |kept| && forall x | x in Positions(kept, d, m) :: x < m + d
    decreases |kept|
  {
    hide Positions;
    if kept == {} {
      NoPositions(d, m);
    } else {
      var i :| i in kept;
      var rest := kept - {i};
      PositionsCount(rest, d, m);
      OnePosition(kept, rest, i, d, m);
    }
  }

  lemma NoPositions(d: nat, m: nat)
    ensures Positions({}, d, m) == {}
  {
  }

  lemma OnePosition(kept: set<nat>, rest: set<nat>, i: nat, d: nat, m: nat)
    requires i in kept && rest == kept - {i} && forall j | j in kept :: j < d + m
    ensures Positions(kept, d, m) == Positions(rest, d, m) + {PositionOf(i, d, m)}
    ensures PositionOf(i, d, m) !in Positions(rest, d, m) && PositionOf(i, d, m) < m + d && |kept| == |rest| + 1
  {
    assert kept == rest + {i};
  }

  // The encodings agree in the shards kept.
  ghost predicate Agree(t: Leopard, data: seq<Shard>, data': seq<Shard>, n: nat, k: nat, parityShards: nat, size: nat,
                        kept: set<nat>)
    requires Encodes(t, data, n, k, parityShards, size) && Encodes(t, data', n, k, parityShards, size)
    requires |data| == |data'|
  {
    forall i | i in kept ::
      i < |data| + parityShards
      && Encoded(t, data, n, k, parityShards, size)[i] == Encoded(t, data', n, k, parityShards, size)[i]
  }

  // Two data sets whose encodings agree in dataShards shards or more are read the same.
  lemma AnyDetermine<E(!new)>(t: Leopard, f: Novel<E>, read: Shard -> E, data: seq<Shard>, data': seq<Shard>, n: nat,
                              k: nat, parityShards: nat, size: nat, kept: set<nat>)
    requires Reads(t, f, read, size) && |data| == |data'| <= |kept|
    requires Encodes(t, data, n, k, parityShards, size) && Encodes(t, data', n, k, parityShards, size)
    requires Agree(t, data, data', n, k, parityShards, size, kept)
    ensures forall i | 0 <= i < |data| :: read(data[i]) == read(data'[i])
  {
    hide *;
    EncodesParts(t, data, n, k, parityShards, size);
    var p := ParityEvaluates(t, f, read, data, n, k, parityShards, size);
    var p' := ParityEvaluates(t, f, read, data', n, k, parityShards, size);
    SamePolynomial(t, f, read, data, data', n, k, parityShards, size, kept, p, p');
    forall i | 0 <= i < |data| ensures read(data[i]) == read(data'[i]) {
      ValueOfData(f, read, data, n, k, p, i);
      ValueOfData(f, read, data', n, k, p', i);
    }
  }

  lemma SamePolynomial<E(!new)>(t: Leopard, f: Novel<E>, read: Shard -> E, data: seq<Shard>, data': seq<Shard>, n: nat,
                                k: nat, parityShards: nat, size: nat, kept: set<nat>, p: seq<E>, p': seq<E>)
    requires Reads(t, f, read, size) && |data| == |data'| <= |kept|
    requires Encodes(t, data, n, k, parityShards, size) && Encodes(t, data', n, k, parityShards, size)
    requires Agree(t, data, data', n, k, parityShards, size, kept)
    requires Pow2(n) <= Pow2(k) && Carries(f, read, data, n, k, p) && Carries(f, read, data', n, k, p')
    requires GivesParity(t, f, read, data, n, k, parityShards, size, p)
    requires GivesParity(t, f, read, data', n, k, parityShards, size, p')
    ensures p == p'
  {
    hide *;
    ReadsField(t, f, read, size);
    EncodesParts(t, data, n, k, parityShards, size);
    var m, d := Pow2(n), |data|;
    KeptBelow(t, data, data', n, k, parityShards, size, kept);
    var known := KnownSet(kept, d, m, Pow2(k));
    CarriesDegree(f, read, data, n, k, p);
    CarriesDegree(f, read, data', n, k, p');
    forall y | y in known ensures |p| == |p'| == Pow2(k) > y && f.Eval(p, k, y) == f.Eval(p', k, y) {
      PositionsBelow(kept, d, m, y);
      KnownValue(t, f, read, data, data', n, k, parityShards, size, kept, p, p', y);
    }
    ValuesDetermine(f, p, p', k, Pow2(k) - m, known);
  }

  // At the positions of the shards kept, and behind the data, both have the same values.
  lemma KnownValue<E(!new)>(t: Leopard, f: Novel<E>, read: Shard -> E, data: seq<Shard>, data': seq<Shard>, n: nat,
                            k: nat, parityShards: nat, size: nat, kept: set<nat>, p: seq<E>, p': seq<E>, y: nat)
    requires Encodes(t, data, n, k, parityShards, size) && Encodes(t, data', n, k, parityShards, size)
    requires Pow2(n) <= Pow2(k) && Carries(f, read, data, n, k, p) && Carries(f, read, data', n, k, p')
    requires GivesParity(t, f, read, data, n, k, parityShards, size, p)
    requires GivesParity(t, f, read, data', n, k, parityShards, size, p')
    requires |data| == |data'| && Agree(t, data, data', n, k, parityShards, size, kept)
    requires y in Positions(kept, |data|, Pow2(n)) || Pow2(n) + |data| <= y < Pow2(k)
    ensures |p| == |p'| == Pow2(k) && f.Eval(p, k, y) == f.Eval(p', k, y)
  {
    hide *;
    CarriesDegree(f, read, data, n, k, p);
    CarriesDegree(f, read, data', n, k, p');
    if y in Positions(kept, |data|, Pow2(n)) {
      var i := KeptAt(kept, |data|, Pow2(n), y);
      SameValue(t, f, read, data, data', n, k, parityShards, size, kept, p, p', i);
    } else {
      ValueBehind(f, read, data, n, k, p, y);
      ValueBehind(f, read, data', n, k, p', y);
    }
  }

  lemma KeptBelow(t: Leopard, data: seq<Shard>, data': seq<Shard>, n: nat, k: nat, parityShards: nat, size: nat,
                  kept: set<nat>)
    requires Encodes(t, data, n, k, parityShards, size) && Encodes(t, data', n, k, parityShards, size)
    requires |data| == |data'| && Agree(t, data, data', n, k, parityShards, size, kept)
    ensures forall i | i in kept :: i < |data| + parityShards
  {
    hide Encodes, Encoded;
  }

  lemma SameValue<E(!new)>(t: Leopard, f: Novel<E>, read: Shard -> E, data: seq<Shard>, data': seq<Shard>, n: nat,
                           k: nat, parityShards: nat, size: nat, kept: set<nat>, p: seq<E>, p': seq<E>, i: nat)
    requires Encodes(t, data, n, k, parityShards, size) && Encodes(t, data', n, k, parityShards, size)
    requires Pow2(n) <= Pow2(k) && Carries(f, read, data, n, k, p) && Carries(f, read, data', n, k, p')
    requires GivesParity(t, f, read, data, n, k, parityShards, size, p)
    requires GivesParity(t, f, read, data', n, k, parityShards, size, p')
    requires |data| == |data'| && i in kept && Agree(t, data, data', n, k, parityShards, size, kept)
    ensures |p| == |p'| == Pow2(k)
    ensures f.Eval(p, k, PositionOf(i, |data|, Pow2(n))) == f.Eval(p', k, PositionOf(i, |data|, Pow2(n)))
  {
    hide *;
    CarriesDegree(f, read, data, n, k, p);
    CarriesDegree(f, read, data', n, k, p');
    SameShard(t, data, data', n, k, parityShards, size, kept, i);
    ValueOfShard(t, f, read, data, n, k, parityShards, size, p, i);
    ValueOfShard(t, f, read, data', n, k, parityShards, size, p', i);
  }

  lemma SameShard(t: Leopard, data: seq<Shard>, data': seq<Shard>, n: nat, k: nat, parityShards: nat, size: nat,
                  kept: set<nat>, i: nat)
    requires Encodes(t, data, n, k, parityShards, size) && Encodes(t, data', n, k, parityShards, size)
    requires |data| == |data'| && i in kept && Agree(t, data, data', n, k, parityShards, size, kept)
    ensures i < |data| + parityShards
    ensures Encoded(t, data, n, k, parityShards, size)[i] == Encoded(t, data', n, k, parityShards, size)[i]
  {
    hide Encodes, Encoded;
  }

  // The positions of the shards kept and those behind the data.
  lemma KnownSet(kept: set<nat>, d: nat, m: nat, top: nat) returns (known: set<nat>)
    requires m + d <= top && forall i | i in kept :: i < d + m
    ensures |known| == |kept| + top - m - d
    ensures forall y | y in known :: y in Positions(kept, d, m) || m + d <= y < top
  {
    hide Positions;
    PositionsCount(kept, d, m);
    var held, behind := Positions(kept, d, m), Range(m + d, top - m - d);
    assert held * behind == {};
    known := held + behind;
  }

  lemma PositionsBelow(kept: set<nat>, d: nat, m: nat, y: nat)
    requires forall i | i in kept :: i < d + m
    ensures y in Positions(kept, d, m) ==> y < m + d
  {
  }

  lemma KeptAt(kept: set<nat>, d: nat, m: nat, y: nat) returns (i: nat)
    requires y in Positions(kept, d, m)
    ensures i in kept && y == PositionOf(i, d, m)
  {
    i :| i in kept && y == PositionOf(i, d, m);
  }

  lemma CarriesDegree<E(!new)>(f: Novel<E>, read: Shard -> E, data: seq<Shard>, n: nat, k: nat, p: seq<E>)
    requires Pow2(n) <= Pow2(k) && Carries(f, read, data, n, k, p)
    ensures |p| == Pow2(k) && f.Below(p, Pow2(k) - Pow2(n))
  {
    hide Novel.Eval, Pow2, Novel.Below;
  }

  lemma ValueOfData<E(!new)>(f: Novel<E>, read: Shard -> E, data: seq<Shard>, n: nat, k: nat, p: seq<E>, i: nat)
    requires Pow2(n) <= Pow2(k) && Carries(f, read, data, n, k, p) && i < |data|
    ensures f.Eval(p, k, Pow2(n) + i) == read(data[i])
  {
    hide Novel.Eval, Pow2, Novel.Below;
  }

  lemma ValueBehind<E(!new)>(f: Novel<E>, read: Shard -> E, data: seq<Shard>, n: nat, k: nat, p: seq<E>, x: nat)
    requires Pow2(n) <= Pow2(k) && Carries(f, read, data, n, k, p) && Pow2(n) + |data| <= x < Pow2(k)
    ensures f.Eval(p, k, x) == f.zero
  {
    hide Novel.Eval, Pow2, Novel.Below;
  }

  lemma ValueOfShard<E(!new)>(t: Leopard, f: Novel<E>, read: Shard -> E, data: seq<Shard>, n: nat, k: nat,
                              parityShards: nat, size: nat, p: seq<E>, i: nat)
    requires Encodes(t, data, n, k, parityShards, size) && Pow2(n) <= Pow2(k) && Carries(f, read, data, n, k, p)
    requires GivesParity(t, f, read, data, n, k, parityShards, size, p) && i < |data| + parityShards
    ensures f.Eval(p, k, PositionOf(i, |data|, Pow2(n))) == read(Encoded(t, data, n, k, parityShards, size)[i])
  {
    hide Novel.Eval, Pow2, Novel.Below, Encodes, Carries;
    CarriesDegree(f, read, data, n, k, p);
    WordRows(t, data, n, k, parityShards, size);
    if i < |data| {
      ValueOfData(f, read, data, n, k, p, i);
    } else {
      assert f.Eval(p, k, i - |data|) == read(Encoded(t, data, n, k, parityShards, size)[|data| + (i - |data|)]);
    }
  }
}
