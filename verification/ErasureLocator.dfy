// The error locator of the decoder as a product over the erased positions.
module ErasureLocator {

  import opened BitXor
  import opened Modular
  import opened Galois
  import opened LeopardField
  import opened NovelBasis
  import opened Interpolation
  import opened Elements8
  import opened Walsh
  import opened RecoverySpec

  // The erased positions below upto, but for skip.
  function Roots(e: seq<nat>, skip: int, upto: nat): seq<nat>
  {
    if upto == 0 then []
    else if upto <= |e| && e[upto - 1] == 1 && upto - 1 != skip then Roots(e, skip, upto - 1) + [upto - 1]
    else Roots(e, skip, upto - 1)
  }

  ghost predicate Erased(e: seq<nat>, j: int) {
    0 <= j < |e| && e[j] == 1
  }

  lemma RootsStep<E(!new)>(n: Novel<E>, e: seq<nat>, skip: int, upto: nat, x: nat)
    requires 0 < upto
    ensures Prod(n, Roots(e, skip, upto), x)
         == if Erased(e, upto - 1) && upto - 1 != skip then
              n.Times(Prod(n, Roots(e, skip, upto - 1), x), n.Add(n.At(x), n.At(upto - 1)))
            else Prod(n, Roots(e, skip, upto - 1), x)
    ensures |Roots(e, skip, upto)|
         == |Roots(e, skip, upto - 1)| + if Erased(e, upto - 1) && upto - 1 != skip then 1 else 0
  {
    hide Novel.Add, Novel.Times;
    if Erased(e, upto - 1) && upto - 1 != skip {
      var js := Roots(e, skip, upto - 1);
      assert (js + [upto - 1])[..|js|] == js;
    }
  }

  lemma RootsNone<E(!new)>(n: Novel<E>, e: seq<nat>, skip: int, x: nat)
    ensures Roots(e, skip, 0) == [] && Prod(n, [], x) == n.one
  {
  }

  // A position that is not erased can be skipped.
  lemma {:induction false} SkipNothing(e: seq<nat>, i: int, upto: nat)
    requires !Erased(e, i)
    ensures Roots(e, i, upto) == Roots(e, -1, upto)
  {
    if upto > 0 {
      SkipNothing(e, i, upto - 1);
    }
  }

  // Skipping an erased position takes one factor out.
  lemma {:induction false} SkipOne<E(!new)>(n: Novel<E>, e: seq<nat>, i: nat, upto: nat, x: nat)
    requires n.Ready() && Erased(e, i)
    ensures Prod(n, Roots(e, -1, upto), x)
         == if i < upto then n.Times(n.Add(n.At(x), n.At(i)), Prod(n, Roots(e, i, upto), x))
            else Prod(n, Roots(e, i, upto), x)
    ensures |Roots(e, -1, upto)| == |Roots(e, i, upto)| + if i < upto then 1 else 0
  {
    hide *;
    RootsNone(n, e, -1, x);
    RootsNone(n, e, i, x);
    if upto > 0 {
      SkipOne(n, e, i, upto - 1, x);
      RootsStep(n, e, -1, upto, x);
      RootsStep(n, e, i, upto, x);
      var p, f, g := Prod(n, Roots(e, i, upto - 1), x), n.Add(n.At(x), n.At(i)), n.Add(n.At(x), n.At(upto - 1));
      n.TimesLaws(p, g, p);
      n.TimesLaws(f, p, g);
      n.TimesLaws(p, f, p);
    }
  }

  // The product vanishes at erased positions.
  lemma {:induction false} ProdVanishes<E(!new)>(n: Novel<E>, e: seq<nat>, skip: int, upto: nat, x: nat)
    requires n.Ready() && x < upto && Erased(e, x) && x != skip
    ensures Prod(n, Roots(e, skip, upto), x) == n.zero
  {
    hide *;
    RootsStep(n, e, skip, upto, x);
    if x == upto - 1 {
      n.AddLaws(n.At(x), n.At(x), n.At(x));
      n.TimesLaws(Prod(n, Roots(e, skip, upto - 1), x), n.zero, n.zero);
    } else {
      ProdVanishes(n, e, skip, upto - 1, x);
      n.TimesLaws(n.Add(n.At(x), n.At(upto - 1)), n.zero, n.zero);
    }
  }

  lemma {:induction false} RootsNumbers(e: seq<nat>, skip: int, upto: nat, order: nat)
    requires upto <= order
    ensures Numbers(Roots(e, skip, upto), order)
  {
    if upto > 0 {
      RootsNumbers(e, skip, upto - 1, order);
    }
  }

  // ---------- The sum of logarithms is the logarithm of the product ----------

  ghost predicate ZeroOne(e: seq<nat>) {
    |e| == 256 && forall i | 0 <= i < 256 :: e[i] == 0 || e[i] == 1
  }

  lemma PairedAt(e: seq<nat>, x: Byte, j: Byte)
    requires ZeroOne(e)
    ensures Paired(e, Logs(), x)(j) == if Erased(e, j) && j != x then Log8(GalAdd(x, j)) else 0
  {
    hide Log8, Xor;
    AddLaws(x, j, 0);
    var y: Byte := GalAdd(x, j);
    assert Entry(e, j) == e[j];
    assert Entry(Logs(), y) == if y == 0 then 0 else Log8(y);
  }

  lemma SigmaStep(f: int -> int, n: nat)
    requires n > 0
    ensures Sigma(f, n) == Sigma(f, n - 1) + f(n - 1)
  {
  }

  lemma SigmaNone(f: int -> int)
    ensures Sigma(f, 0) == 0
  {
  }

  lemma {:induction false} PartialProduct(n: Novel<Byte>, e: seq<nat>, x: Byte, upto: nat, y: Byte, log: Byte)
    requires OfCodec(n) && ZeroOne(e) && upto <= 256
    requires Cong(log, Sigma(Paired(e, Logs(), x), upto), 255)
    ensures MulLog8(y, log) == n.Times(y, Prod(n, Roots(e, x, upto), x))
    decreases upto
  {
    hide *;
    CodecReady(n);
    var f := Paired(e, Logs(), x);
    if upto == 0 {
      SigmaNone(f);
      RootsNone(n, e, x, x);
      MulLogCong8(y, log, 0);
      MulLogNone8(y);
      n.TimesLaws(y, y, y);
    } else {
      SigmaStep(f, upto - 1 + 1);
      RootsStep(n, e, x, upto, x);
      PairedAt(e, x, upto - 1);
      var before := Sigma(f, upto - 1);
      var rest := Residue(before);
      PartialProduct(n, e, x, upto - 1, y, rest);
      if Erased(e, upto - 1) && upto - 1 != x {
        var root: Byte := GalAdd(x, upto - 1);
        AddLaws(x, upto - 1, 0);
        CodecSum(n, x, upto - 1);
        CodecSum(n, upto - 1, x);
        LastFactor(n, y, rest, log, before, root, Prod(n, Roots(e, x, upto - 1), x));
      } else {
        CongChain(log, before, rest, 255);
        MulLogCong8(y, log, rest);
      }
    }
  }

  lemma Residue(s: int) returns (r: Byte)
    ensures Cong(r, s, 255)
  {
    r := s % 255;
    ModUnique(r, 0, r, 255);
  }

  lemma CongChain(a: int, b: int, c: int, p: int)
    requires p > 0 && Cong(a, b, p) && Cong(c, b, p)
    ensures Cong(a, c, p)
  {
  }

  lemma LastFactor(n: Novel<Byte>, y: Byte, rest: Byte, log: Byte, before: int, root: Byte, product: Byte)
    requires OfCodec(n) && root != 0 && Cong(rest, before, 255) && Cong(log, before + Log8(root), 255)
    requires MulLog8(y, rest) == n.Times(y, product)
    ensures MulLog8(y, log) == n.Times(y, n.Times(product, root))
  {
    hide *;
    CodecReady(n);
    var l := Log8(root);
    CongSelf(l);
    CongSum(rest, before, l, l, 255);
    CongChain(log, before + l, rest + l, 255);
    MulLogAdds8(y, rest, l, log);
    CodecProduct(n, MulLog8(y, rest), root);
    n.TimesLaws(y, product, root);
  }

  lemma CongSelf(l: int)
    ensures Cong(l, l, 255)
  {
  }

  // Scaling by the locator multiplies by the differences to the erased positions.
  lemma LocatorIsProduct(n: Novel<Byte>, e: seq<nat>, loc: seq<nat>, x: Byte, y: Byte)
    requires OfCodec(n) && ZeroOne(e) && Locates(loc, e)
    ensures loc[x] < 256 && MulLog8(y, loc[x]) == n.Times(y, Prod(n, Roots(e, x, 256), x))
  {
    hide *;
    LocatesAt(loc, e, x);
    PartialProduct(n, e, x, 256, y, loc[x]);
  }

  lemma LocatesAt(loc: seq<nat>, e: seq<nat>, x: Byte)
    requires Locates(loc, e)
    ensures |loc| == 256 && loc[x] < 256 && Cong(loc[x], Sigma(Paired(e, Logs(), x), 256), 255)
  {
    hide Sigma, Paired, Logs;
  }
}
