// buildMatrix (reedsolomon.go): the coding matrix is the identity on the data shards and any
// dataShards of its rows determine the data.
module CodingMatrix {

  import opened Wrappers
  import opened Galois
  import opened LinearAlgebra
  import opened SolutionSets
  import opened Matrix
  import opened Polynomials
  import opened Vandermonde
  import opened Pigeonhole

  lemma ProductAssociates(a: Grid, b: Grid, c: Grid, n: nat, cols: nat)
    requires IsGrid(a, |a|, |b|) && IsGrid(b, |b|, n) && IsGrid(c, n, cols)
    ensures Product(a, Product(b, c, cols), cols) == Product(Product(a, b, n), c, cols)
  {
    hide Product, Apply;
    var l, r := Product(a, Product(b, c, cols), cols), Product(Product(a, b, n), c, cols);
    forall x: Row | |x| == cols ensures Apply(l, x) == Apply(r, x) {
      ApplyProduct(a, Product(b, c, cols), x);
      ApplyProduct(b, c, x);
      ApplyProduct(Product(a, b, n), c, x);
      ApplyProduct(a, b, Apply(c, x));
    }
    SameAction(l, r, cols);
  }

  lemma ProductIdentity(a: Grid, n: nat, cols: nat)
    requires IsGrid(a, n, cols)
    ensures Product(Identity(n), a, cols) == a
    ensures Product(a, Identity(cols), cols) == a
  {
    hide Product, Apply, Identity;
    forall x: Row | |x| == cols
      ensures Apply(Product(Identity(n), a, cols), x) == Apply(a, x)
      ensures Apply(Product(a, Identity(cols), cols), x) == Apply(a, x)
    {
      ApplyProduct(Identity(n), a, x);
      ApplyIdentity(Apply(a, x));
      ApplyProduct(a, Identity(cols), x);
      ApplyIdentity(x);
    }
    SameAction(Product(Identity(n), a, cols), a, cols);
    SameAction(Product(a, Identity(cols), cols), a, cols);
  }

  lemma SelectProduct(a: Grid, b: Grid, cols: nat, idx: seq<nat>)
    requires IsGrid(a, |a|, |b|) && IsGrid(b, |b|, cols)
    requires forall i | 0 <= i < |idx| :: idx[i] < |a|
    ensures Select(Product(a, b, cols), cols, idx) == Product(Select(a, |b|, idx), b, cols)
  {
    hide Combine;
  }

  function Upto(n: nat): (idx: seq<nat>)
    ensures |idx| == n && Distinct(idx)
  {
    seq(n, i => i)
  }

  // Any k distinct rows are regular, and the first k are the identity.
  ghost predicate IsCodingMatrix(m: Grid, k: nat, total: nat) {
    && k <= total && IsGrid(m, total, k)
    && (forall i | 0 <= i < k :: m[i] == Unit(k, i))
    && (forall idx: seq<nat> | |idx| == k && Distinct(idx) && (forall i | 0 <= i < k :: idx[i] < total) ::
          Regular(Select(m, k, idx), k))
  }

  lemma CodingShape(m: Grid, k: nat, total: nat)
    requires IsCodingMatrix(m, k, total)
    ensures k <= total && IsGrid(m, total, k) && forall i | 0 <= i < k :: m[i] == Unit(k, i)
  {
    hide Regular, Select;
  }

  lemma CodingSelection(m: Grid, k: nat, total: nat, idx: seq<nat>)
    requires IsCodingMatrix(m, k, total)
    requires |idx| == k && Distinct(idx) && forall i | 0 <= i < k :: idx[i] < total
    ensures IsGrid(m, total, k) && Regular(Select(m, k, idx), k)
  {
    hide Regular, Select;
  }

  // m makes of the top of the Vandermonde matrix the whole of it.
  ghost predicate IsBuilt(m: Grid, k: nat, total: nat) {
    && k <= total && IsGrid(m, total, k)
    && Product(m, VandermondeGrid(total, k)[..k], k) == VandermondeGrid(total, k)
  }

  // m is so built, and nothing else is.
  ghost predicate OnlyBuilt(m: Grid, k: nat, total: nat) {
    IsBuilt(m, k, total) && forall m': Grid | IsBuilt(m', k, total) :: m' == m
  }

  lemma InverseTakesBack(m: Grid, k: nat, total: nat, inv: Grid)
    requires k <= total && IsBuilt(m, k, total) && AreInverse(VandermondeGrid(total, k)[..k], inv, k)
    ensures m == Product(VandermondeGrid(total, k), inv, k)
  {
    hide Product, VandermondeGrid, Identity;
    ProductAssociates(m, VandermondeGrid(total, k)[..k], inv, k, k);
    ProductIdentity(m, total, k);
  }

  lemma BuiltFromInverse(total: nat, k: nat, inv: Grid)
    requires k <= total && AreInverse(VandermondeGrid(total, k)[..k], inv, k)
    ensures OnlyBuilt(Product(VandermondeGrid(total, k), inv, k), k, total)
  {
    hide Product, VandermondeGrid, Identity, AreInverse;
    var v := VandermondeGrid(total, k);
    assert IsBuilt(Product(v, inv, k), k, total) by {
      InverseLeft(v[..k], inv, k);
      ProductAssociates(v, inv, v[..k], k, k);
      ProductIdentity(v, total, k);
    }
    forall m': Grid | IsBuilt(m', k, total) ensures m' == Product(v, inv, k) {
      InverseTakesBack(m', k, total, inv);
    }
  }

  lemma InverseLeft(a: Grid, b: Grid, n: nat)
    requires AreInverse(a, b, n)
    ensures IsGrid(a, n, n) && IsGrid(b, n, n) && Product(b, a, n) == Identity(n)
  {
    hide Product, Identity;
  }

  // Encoding evaluates: of data that are the values of a polynomial at 0, 1 and so on, every
  // shard is the value at its number.
  lemma ShardsAreValues(m: Grid, k: nat, total: nat, coeffs: Row, data: Row)
    requires 0 < k <= total <= 256 && IsBuilt(m, k, total) && |coeffs| == |data| == k
    requires forall i: Byte | i < k :: data[i] == Eval(coeffs, i)
    ensures IsGrid(m, total, k) && forall i: Byte | i < total :: Apply(m, data)[i] == Eval(coeffs, i)
  {
    hide Product, VandermondeGrid, Apply, Eval;
    var v := VandermondeGrid(total, k);
    ValuesOfRows(total, coeffs);
    assert data == Apply(v[..k], coeffs) by {
      forall i: Byte | i < k ensures data[i] == Apply(v[..k], coeffs)[i] {
        ApplyTop(v, k, coeffs);
      }
    }
    ApplyProduct(m, v[..k], coeffs);
  }

  lemma ApplyTop(v: Grid, k: nat, coeffs: Row)
    requires IsGrid(v, |v|, |coeffs|) && k <= |v|
    ensures Apply(v[..k], coeffs) == Apply(v, coeffs)[..k]
  {
    hide Dot;
  }

  lemma ValuesOfRows(total: nat, coeffs: Row)
    requires total <= 256
    ensures forall i: Byte | i < total :: Apply(VandermondeGrid(total, |coeffs|), coeffs)[i] == Eval(coeffs, i)
  {
    hide Dot, Eval;
    assert coeffs[..|coeffs|] == coeffs;
    forall i: Byte | i < total ensures Apply(VandermondeGrid(total, |coeffs|), coeffs)[i] == Eval(coeffs, i) {
      DotPowers(i, coeffs, |coeffs|);
    }
  }

  // Multiplying by the inverse of the top square keeps every selection regular.
  lemma RegularTimesInverse(s: Grid, top: Grid, inv: Grid, k: nat)
    requires IsGrid(s, k, k) && Regular(s, k) && AreInverse(top, inv, k)
    ensures Regular(Product(s, inv, k), k)
  {
    hide Apply, Product, Identity, Zeros;
    forall x: Row | |x| == k && Apply(Product(s, inv, k), x) == Zeros(k) ensures x == Zeros(k) {
      ApplyProduct(s, inv, x);
      ApplyProduct(top, inv, x);
      ApplyIdentity(x);
      ApplyZeros(top, k);
    }
  }

  lemma SystematicIsCoding(total: nat, k: nat, inv: Grid)
    requires 0 < k <= total <= 256
    requires AreInverse(VandermondeGrid(total, k)[..k], inv, k)
    ensures IsCodingMatrix(Product(VandermondeGrid(total, k), inv, k), k, total)
  {
    hide Product, VandermondeGrid, Regular, Select;
    var v := VandermondeGrid(total, k);
    var m := Product(v, inv, k);
    assert Select(v, k, Upto(k)) == v[..k] by {
      SelectUpto(v, k, k);
    }
    SelectProduct(v, inv, k, Upto(k));
    SelectUpto(m, k, k);
    forall i | 0 <= i < k ensures m[i] == Unit(k, i) {
      assert m[..k][i] == Identity(k)[i];
    }
    forall idx: seq<nat> | |idx| == k && Distinct(idx) && (forall i | 0 <= i < k :: idx[i] < total)
      ensures Regular(Select(m, k, idx), k)
    {
      DistinctRowsRegular(total, idx);
      SelectProduct(v, inv, k, idx);
      RegularTimesInverse(Select(v, k, idx), v[..k], inv, k);
    }
  }

  lemma SelectUpto(m: Grid, cols: nat, n: nat)
    requires IsGrid(m, |m|, cols) && n <= |m|
    ensures Select(m, cols, Upto(n)) == m[..n]
  {
  }

  lemma RegularNotSingular(a: Grid, kernel: Row)
    requires IsGrid(a, |kernel|, |kernel|) && Regular(a, |kernel|)
    requires Apply(a, kernel) == Zeros(|kernel|)
    ensures kernel == Zeros(|kernel|)
  {
  }

  method BuildMatrix(dataShards: nat, totalShards: nat) returns (r: Result<Rows, Error>)
    requires 0 < dataShards <= totalShards <= 256
    ensures r.Ok? && fresh(r.value) && IsCodingMatrix(r.value[..], dataShards, totalShards)
    ensures OnlyBuilt(r.value[..], dataShards, totalShards)
  {
    hide Regular, Product, VandermondeGrid, Select, Apply;
    var vm := NewVandermonde(totalShards, dataShards);
    var v: Rows := vm.value;
    assert forall i | 0 <= i < totalShards :: |v[..][i]| == dataShards;
    var sub := SubMatrix(v, 0, 0, dataShards, dataShards);
    var top: Rows := sub.value;
    forall i | 0 <= i < dataShards ensures top[i] == v[..][i] {
      assert v[i][0..dataShards] == v[i];
    }
    assert top[..] == VandermondeGrid(totalShards, dataShards)[..dataShards];
    ghost var kernel;
    var topInv;
    topInv, kernel := Invert(top, dataShards);
    SelectUpto(VandermondeGrid(totalShards, dataShards), dataShards, dataShards);
    DistinctRowsRegular(totalShards, Upto(dataShards));
    if topInv.Err? {
      RegularNotSingular(top[..], kernel);
      assert false;
    }
    var inv: Rows := topInv.value;
    assert v[..] == VandermondeGrid(totalShards, dataShards);
    assert forall i | 0 <= i < dataShards :: |inv[..][i]| == dataShards;
    r := Multiply(v, inv, dataShards);
    SystematicIsCoding(totalShards, dataShards, inv[..]);
    BuiltFromInverse(totalShards, dataShards, inv[..]);
  }

  // ---------- Decoding ----------

  // The inverse of the rows present brings back the data.
  lemma DecodeRecovers(m: Grid, k: nat, total: nat, idx: seq<nat>, decode: Grid, data: Grid, cols: nat)
    requires IsGrid(m, total, k) && IsGrid(data, k, cols)
    requires |idx| == k && forall i | 0 <= i < k :: idx[i] < total
    requires AreInverse(Select(m, k, idx), decode, k)
    ensures Product(decode, Select(Product(m, data, cols), cols, idx), cols) == data
  {
    hide Product, Select, Identity;
    SelectProduct(m, data, cols, idx);
    ProductAssociates(decode, Select(m, k, idx), data, k, cols);
    ProductIdentity(data, k, cols);
  }
}
