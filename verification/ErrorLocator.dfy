// The error locator of the Leopard decoder: two Walsh-Hadamard transforms around a product
// modulo order - 1 give, for every position, the sum of the logarithms of its distances to
// the erased positions.
module ErrorLocator {

  import opened BitXor
  import opened Modular
  import opened Walsh
  import opened WalshLoops

  ghost predicate AllCong(a: seq<int>, b: seq<int>, p: int)
    requires p > 0
  {
    |a| == |b| && forall i | 0 <= i < |a| :: Cong(a[i], b[i], p)
  }

  lemma AllCongHalves(a: seq<int>, b: seq<int>, h: nat, p: int)
    requires p > 0 && AllCong(a, b, p) && h <= |a|
    ensures AllCong(a[..h], b[..h], p) && AllCong(a[h..], b[h..], p)
  {
    hide Cong;
  }

  lemma AllCongButterfly(a: seq<int>, b: seq<int>, c: seq<int>, d: seq<int>, p: int)
    requires p > 0 && |a| == |c| && AllCong(a, b, p) && AllCong(c, d, p)
    ensures AllCong(Plus(a, c) + Minus(a, c), Plus(b, d) + Minus(b, d), p)
  {
    hide Cong;
    forall i | 0 <= i < |a| ensures Cong(a[i] + c[i], b[i] + d[i], p) && Cong(a[i] - c[i], b[i] - d[i], p) {
      CongArithmetic(a[i], b[i], c[i], d[i], p);
    }
  }

  // Congruent entries have congruent transforms.
  lemma {:induction false} WhtCong(a: seq<int>, b: seq<int>, k: nat, p: int)
    requires p > 0 && |a| == |b| == Pow2(k) && AllCong(a, b, p)
    ensures AllCong(Wht(a, k), Wht(b, k), p)
  {
    hide *;
    if k == 0 {
      PowZero();
      WhtBase(a);
      WhtBase(b);
    } else {
      var h := Pow2(k - 1);
      PowStep(k);
      WhtStep(a, k, h);
      WhtStep(b, k, h);
      AllCongHalves(a, b, h, p);
      WhtCong(a[..h], b[..h], k - 1, p);
      WhtCong(a[h..], b[h..], k - 1, p);
      AllCongButterfly(Wht(a[..h], k - 1), Wht(b[..h], k - 1), Wht(a[h..], k - 1), Wht(b[h..], k - 1), p);
    }
  }

  lemma OrderIsOne(x: int, order: nat)
    requires order > 1
    ensures Cong(order * x, x, order - 1)
  {
    assert order * x == x + x * (order - 1);
    CongShift(x, x, order - 1);
  }

  lemma CongTrans(a: int, b: int, c: int, p: int)
    requires p > 0 && Cong(a, b, p) && Cong(b, c, p)
    ensures Cong(a, c, p)
  {
  }

  // Two passes give every entry back, up to the two forms of zero.
  lemma TwicePassed(v: seq<int>, x: seq<int>, n: nat, i: nat)
    requires |x| == |v| == Pow2(n) && n > 0 && Pow2(n) > 1 && i < |x|
    requires AllCong(v, Wht(x, n), Pow2(n) - 1)
    ensures Cong(Wht(v, n)[i], x[i], Pow2(n) - 1)
  {
    hide Wht, Pow2, Cong;
    var p := Pow2(n) - 1;
    WhtCong(v, Wht(x, n), n, p);
    WhtTwice(x, n);
    OrderIsOne(x[i], Pow2(n));
    CongTrans(Wht(v, n)[i], Pow2(n) * x[i], x[i], p);
  }

  lemma FieldBits(order: nat, n: nat)
    requires Field(order) && order == Pow2(n)
    ensures n > 0
  {
  }

  lemma StandsMeans(v: seq<nat>, x: seq<int>, order: nat)
    requires order > 1 && |v| == |x| && forall i | 0 <= i < |v| :: Stands(v[i], x[i], order)
    ensures AllCong(v, x, order - 1) && forall i | 0 <= i < |v| :: v[i] < order
  {
  }

  method FwhtTwice(data: array<nat>, mtrunc: nat, order: nat, ghost n: nat)
    requires Field(order) && order == Pow2(n) == data.Length && n % 2 == 0 && mtrunc <= order
    requires forall i | 0 <= i < order :: data[i] < order
    requires forall i | mtrunc <= i < order :: data[i] == 0
    modifies data
    ensures forall i | 0 <= i < order :: data[i] < order && Cong(data[i], old(data[i]), order - 1)
  {
    hide Wht, Pow2, Cong, Stands;
    ghost var x: seq<int> := data[..];
    FieldBits(order, n);
    Fwht(data, mtrunc, order, n);
    ghost var v: seq<nat> := data[..];
    StandsMeans(v, Wht(x, n), order);
    Fwht(data, order, order, n);
    StandsMeans(data[..], Wht(v, n), order);
    forall i | 0 <= i < order ensures Cong(data[i], x[i], order - 1) {
      TwicePassed(v, x, n, i);
      CongTrans(data[..][i], Wht(v, n)[i], x[i], order - 1);
    }
  }

  // The last part of initFFTSkew8: logWalsh8 from the logarithms, with 0 for that of 0.
  method InitLogWalsh(logs: seq<nat>, order: nat, ghost n: nat) returns (logWalsh: array<nat>)
    requires Field(order) && order == Pow2(n) == |logs| && n % 2 == 0
    requires forall i | 0 <= i < order :: logs[i] < order
    ensures fresh(logWalsh) && logWalsh.Length == order
    ensures forall i | 0 <= i < order :: Stands(logWalsh[i], Wht(logs[0 := 0], n)[i], order)
  {
    hide Wht, Pow2, Stands;
    logWalsh := new nat[order](i requires 0 <= i < |logs| => logs[i]);
    logWalsh[0] := 0;
    assert logWalsh[..] == logs[0 := 0];
    Fwht(logWalsh, order, order, n);
  }

  // What position i of the locator is: over all erased j, the sum of the logs of i xor j.
  lemma LocatorSum(v: seq<int>, e: seq<int>, logs: seq<int>, n: nat, i: nat)
    requires |e| == |logs| == |v| == Pow2(n) && Pow2(n) > 1 && i < |e|
    requires AllCong(v, Times(Wht(e, n), Wht(logs, n)), Pow2(n) - 1)
    ensures Cong(Wht(v, n)[i], Sigma(Paired(e, logs, i), Pow2(n)), Pow2(n) - 1)
  {
    hide Wht, Pow2, Cong, Convolve, Times;
    var p := Pow2(n) - 1;
    WhtCong(v, Times(Wht(e, n), Wht(logs, n)), n, p);
    LocatorIdentity(e, logs, n);
    ConvolveIsSum(e, logs, n, i);
    OrderIsOne(Convolve(e, logs, n)[i], Pow2(n));
    CongTrans(Wht(v, n)[i], Pow2(n) * Convolve(e, logs, n)[i], Convolve(e, logs, n)[i], p);
  }

  lemma ProductStands(a: nat, b: nat, x: int, y: int, order: nat)
    requires order > 1 && Stands(a, x, order) && Stands(b, y, order)
    ensures a * b % (order - 1) < order && Cong(a * b % (order - 1), x * y, order - 1)
  {
    CongArithmetic(a, x, b, y, order - 1);
    ModTwice(a * b, order - 1);
  }

  lemma ModTwice(a: nat, p: nat)
    requires p > 0
    ensures a % p % p == a % p
  {
  }

  // "Evaluate error locator polynomial" in reconstruct: errLocs holds the erasures, all of
  // them below mtrunc, and logWalsh the transform of logs.
  method EvaluateLocator(errLocs: array<nat>, logWalsh: array<nat>, mtrunc: nat, order: nat, ghost n: nat,
                         ghost logs: seq<int>)
    requires Field(order) && order == Pow2(n) == errLocs.Length == logWalsh.Length && n % 2 == 0 && mtrunc <= order
    requires errLocs != logWalsh && |logs| == order
    requires forall i | 0 <= i < order :: errLocs[i] < order
    requires forall i | mtrunc <= i < order :: errLocs[i] == 0
    requires forall i | 0 <= i < order :: Stands(logWalsh[i], Wht(logs, n)[i], order)
    modifies errLocs
    ensures forall i | 0 <= i < order ::
      errLocs[i] < order && Cong(errLocs[i], Sigma(Paired(old(errLocs[..]), logs, i), order), order - 1)
  {
    hide Wht, Pow2, Cong, Stands, Sigma, Paired;
    ghost var e: seq<int> := errLocs[..];
    Fwht(errLocs, mtrunc, order, n);
    ghost var spectrum: seq<nat> := errLocs[..];
    ghost var goal := Times(Wht(e, n), Wht(logs, n));
    for i := 0 to order
      invariant forall j | 0 <= j < i :: errLocs[j] < order && Cong(errLocs[j], goal[j], order - 1)
      invariant forall j | i <= j < order :: errLocs[j] == spectrum[j]
    {
      ProductStands(errLocs[i], logWalsh[i], Wht(e, n)[i], Wht(logs, n)[i], order);
      errLocs[i] := errLocs[i] * logWalsh[i] % (order - 1);
    }
    ghost var v: seq<nat> := errLocs[..];
    Fwht(errLocs, order, order, n);
    StandsMeans(errLocs[..], Wht(v, n), order);
    forall i | 0 <= i < order ensures Cong(errLocs[i], Sigma(Paired(e, logs, i), order), order - 1) {
      LocatorSum(v, e, logs, n, i);
      CongTrans(errLocs[..][i], Wht(v, n)[i], Sigma(Paired(e, logs, i), order), order - 1);
    }
  }
}
