// initFFTSkew and initFFTSkew8: the skew table of either width. In a Cantor basis its entries
// are the logarithms of even numbers.
module SkewTable {

  import opened BitXor
  import opened Modular
  import opened BinaryField
  import opened BitMaps
  import opened CantorField
  import opened WalshLoops

  // Where the factor of block q of 2 * 2^b shards stands.
  function Place(q: nat, b: nat): nat {
    (2 * q + 1) * Pow2(b) - 1
  }

  lemma PlaceIs(q: nat, b: nat)
    ensures Place(q, b) + 1 == (2 * q + 1) * Pow2(b) >= Pow2(b)
  {
    MulMonotone(1, 2 * q + 1, Pow2(b));
  }

  lemma {:induction false} PowAdds(a: nat, b: nat)
    ensures Pow2(a + b) == Pow2(a) * Pow2(b)
  {
    if a > 0 {
      PowStep(a + b);
      PowAdds(a - 1, b);
    }
  }

  // An odd number times a power of two determines both.
  lemma PlacesApart(q: nat, b: nat, p: nat, c: nat)
    requires Place(q, b) == Place(p, c)
    ensures q == p && b == c
  {
    hide Place, Pow2;
    PlaceIs(q, b);
    PlaceIs(p, c);
    NotLower(q, b, p, c);
    NotLower(p, c, q, b);
    SameFactor(Pow2(b), 2 * q + 1, 2 * p + 1);
  }

  lemma SameFactor(h: nat, x: nat, y: nat)
    requires h > 0 && x * h == y * h
    ensures x == y
  {
    if x < y {
      MulMonotone(1, y - x, h);
    }
    if y < x {
      MulMonotone(1, x - y, h);
    }
  }

  lemma NotLower(q: nat, b: nat, p: nat, c: nat)
    ensures b < c ==> (2 * q + 1) * Pow2(b) != (2 * p + 1) * Pow2(c)
  {
    if b < c {
      EvenMultiple(p, b, c);
      var e := Pow2(c - b - 1);
      if (2 * q + 1) * Pow2(b) == (2 * p + 1) * Pow2(c) {
        SameFactor(Pow2(b), 2 * q + 1, 2 * ((2 * p + 1) * e));
        assert false;
      }
    }
  }

  lemma EvenMultiple(p: nat, b: nat, c: nat)
    requires b < c
    ensures (2 * p + 1) * Pow2(c) == (2 * ((2 * p + 1) * Pow2(c - b - 1))) * Pow2(b)
  {
    hide Pow2;
    PowAdds(c - b, b);
    PowStep(c - b);
    var e, h := Pow2(c - b - 1), Pow2(b);
    assert (2 * p + 1) * (2 * e * h) == (2 * ((2 * p + 1) * e)) * h;
  }

  // s shards further on.
  lemma PlaceMoves(q: nat, b: nat, d: nat)
    ensures Place(q, b) + Pow2(b + 1 + d) == Place(q + Pow2(d), b)
  {
    hide Pow2;
    PowAdds(b + 1, d);
    PowStep(b + 1);
    assert (2 * (q + Pow2(d)) + 1) * Pow2(b) == (2 * q + 1) * Pow2(b) + 2 * Pow2(b) * Pow2(d);
  }

  lemma PlaceNext(q: nat, b: nat)
    ensures Place(q, b) + Pow2(b + 1) == Place(q + 1, b) && Place(0, b) == Pow2(b) - 1
  {
    PowStep(b + 1);
    assert (2 * (q + 1) + 1) * Pow2(b) == (2 * q + 1) * Pow2(b) + 2 * Pow2(b);
  }

  // A place lies below 2^(b + 1 + d) exactly when its block is one of the first 2^d.
  lemma PlaceBelow(q: nat, b: nat, d: nat)
    ensures Place(q, b) < Pow2(b + 1 + d) <==> q < Pow2(d)
    ensures q < Pow2(d) ==> Place(q, b) + 1 < Pow2(b + 1 + d)
  {
    hide Pow2;
    PowAdds(b + 1, d);
    PowStep(b + 1);
    var h, e := Pow2(b), Pow2(d);
    assert Pow2(b + 1 + d) == 2 * e * h;
    if q < e {
      MulMonotone(2 * q + 2, 2 * e, h);
      assert (2 * q + 2) * h == (2 * q + 1) * h + h;
    } else {
      MulMonotone(2 * e + 1, 2 * q + 1, h);
      assert (2 * e + 1) * h == 2 * e * h + h;
    }
  }

  // ---------- The numbers in temp ----------

  // t * (t + 1) is t / 2.
  lemma NextTemp(f: Field, t: nat)
    requires f.Cantor() && 0 < t < f.Order() && t % 2 == 0
    ensures t + 1 < f.Order() && Xor(t, 1) == t + 1 && f.Log(t + 1) < f.Order()
    ensures f.MulLog(t, f.Log(t + 1)) == t / 2
  {
    hide Undoes, BitMap.Apply, Field.MulLog, Field.Log, Field.Times, Xor, Gf.Valid;
    XorStep(t, 1);
    XorZero(t / 2);
    SameBits(Xor(t, 1), t + 1);
    OrderEven(f);
    f.LogBound(t + 1);
    f.TimesIsMulLog(t, t + 1);
    f.TimesDistributes(t, 1, t);
    f.TimesCommutes(t, t + 1);
    f.TimesOne(t);
    XorAssociates(t, t / 2, t);
    XorCommutes(t, t / 2);
    XorCancels(t / 2, t);
  }

  lemma OrderEven(f: Field)
    requires f.Valid()
    ensures f.Order() % 2 == 0 && f.Order() >= 256 && f.Order() == Pow2(f.g.width) && f.g.width >= 8
  {
    hide Undoes, Gf.Valid, Pow2;
    f.Sizes();
    PowStep(f.g.width);
  }

  lemma LogOfOne(f: Field)
    requires f.Cantor()
    ensures 1 < f.Order() && f.Log(1) == 0
  {
    hide Undoes, BitMap.Apply, Gf.Shift, Field.Times;
    OrderEven(f);
    f.g.ExpZero();
    f.Bounds(1);
  }

  // Adding the modulus to a logarithm changes nothing.
  lemma AddingModulus(f: Field, t: nat, log: nat)
    requires f.Valid() && t < f.Order() && log < f.Order()
    ensures f.Order() > 2 && AddMod(log, f.Order() - 1, f.Order()) < f.Order()
    ensures f.MulLog(t, AddMod(log, f.Order() - 1, f.Order())) == f.MulLog(t, log)
  {
    hide Undoes, BitMap.Apply, Field.MulLog, Gf.Valid, AddMod, Field.Order;
    OrderEven(f);
    var sum := AddMod(log, f.Order() - 1, f.Order());
    AddModCong(log, f.Order() - 1, f.Order());
    CongShift(log, 1, f.Order() - 1);
    f.MulLogCong(t, sum, log);
  }

  // What temp holds before round m.
  ghost predicate TempReady(temp: seq<nat>, w: nat, m: nat) {
    |temp| == w - 1 && forall i: nat | m <= i < w - 1 :: temp[i] == Pow2(i + 1 - m)
  }

  method NextRound(f: Field, temp: array<nat>, w: nat, m: nat)
    requires f.Cantor() && w == f.g.width && m < w - 1 && TempReady(temp[..], w, m)
    modifies temp
    ensures TempReady(temp[..], w, m + 1)
  {
    hide *;
    TempAt(temp[..], w, m, m);
    PowZero();
    PowStep(1);
    CantorValid(f);
    OrderEven(f);
    NextTemp(f, 2);
    LogOfOne(f);
    var product := f.MulLog(temp[m], f.Log(Xor(temp[m], 1)));
    assert product == 1;
    ghost var before := temp[..];
    temp[m] := f.Order() - 1 - f.Log(product);
    for i := m + 1 to w - 1
      invariant temp.Length == w - 1 && temp[m] == f.Order() - 1
      invariant forall j: nat | m < j < i :: temp[j] == Pow2(j - m)
      invariant forall j: nat | i <= j < w - 1 :: temp[j] == before[j]
    {
      TempAt(before, w, m, i);
      PowStep(i + 1 - m);
      PowFits(f, i + 1 - m);
      NextTemp(f, temp[i]);
      AddingModulus(f, temp[i], f.Log(temp[i] + 1));
      var sum := AddMod(f.Log(Xor(temp[i], 1)), temp[m], f.Order());
      temp[i] := f.MulLog(temp[i], sum);
    }
    TempSet(temp[..], w, m + 1);
  }

  lemma CantorValid(f: Field)
    requires f.Cantor()
    ensures f.Valid()
  {
  }

  lemma PowFits(f: Field, k: nat)
    requires f.Valid() && k < f.g.width
    ensures 0 < Pow2(k) < f.Order()
  {
    hide Undoes, Gf.Valid;
    OrderEven(f);
    Words.PowRises(k, f.g.width);
  }

  lemma TempAt(temp: seq<nat>, w: nat, m: nat, i: nat)
    requires TempReady(temp, w, m) && m <= i < w - 1
    ensures |temp| == w - 1 && temp[i] == Pow2(i + 1 - m)
  {
  }

  lemma TempSet(temp: seq<nat>, w: nat, m: nat)
    requires 0 < m && |temp| == w - 1 && forall i: nat | m - 1 < i < w - 1 :: temp[i] == Pow2(i - (m - 1))
    ensures TempReady(temp, w, m)
  {
  }

  // ---------- The entries before they become logarithms ----------

  // Of the places of rounds up to m the first blocks of round m and all of the rounds before are
  // filled, and the others still hold zero.
  ghost predicate Filled(skew: seq<nat>, m: nat, blocks: nat) {
    forall q: nat, b: nat :: FilledAt(skew, m, blocks, q, b)
  }

  ghost predicate FilledAt(skew: seq<nat>, m: nat, blocks: nat, q: nat, b: nat) {
    0 <= Place(q, b) < |skew| ==>
      skew[Place(q, b)] == if b < m || (b == m && q < blocks) then 2 * q else 0
  }

  ghost predicate Small(skew: seq<nat>, order: nat) {
    forall i | 0 <= i < |skew| :: skew[i] < order
  }

  // Filling the next place.
  lemma FillNext(skew: seq<nat>, m: nat, blocks: nat, value: nat)
    requires Filled(skew, m, blocks) && Place(blocks, m) < |skew| && value == 2 * blocks
    ensures Filled(skew[Place(blocks, m) := value], m, blocks + 1)
  {
    hide Place;
    var next := skew[Place(blocks, m) := value];
    var more := blocks + 1;
    forall q: nat, b: nat ensures FilledAt(next, m, more, q, b) {
      assert FilledAt(skew, m, blocks, q, b);
      if Place(q, b) == Place(blocks, m) {
        PlacesApart(q, b, blocks, m);
      }
    }
  }

  lemma FilledIs(skew: seq<nat>, m: nat, blocks: nat, q: nat)
    requires Filled(skew, m, blocks) && q < blocks && Place(q, m) < |skew|
    ensures skew[Place(q, m)] == 2 * q
  {
    hide Place;
    assert FilledAt(skew, m, blocks, q, m);
  }

  lemma NothingFilled(skew: seq<nat>)
    requires forall i | 0 <= i < |skew| :: skew[i] == 0
    ensures Filled(skew, 0, 0)
  {
    hide Place;
  }

  // A round fills all its places.
  lemma RoundFilled(skew: seq<nat>, w: nat, m: nat)
    requires m < w - 1 && |skew| + 1 == Pow2(w) && Filled(skew, m, Pow2(w - 1 - m))
    ensures Filled(skew, m + 1, 0)
  {
    hide Place, Pow2;
    var next := m + 1;
    forall q: nat, b: nat ensures FilledAt(skew, next, 0, q, b) {
      assert FilledAt(skew, m, Pow2(w - 1 - m), q, b);
      PlaceBelow(q, m, w - 1 - m);
    }
  }

  // An even number and the power of two behind the last block.
  lemma NextValue(q: nat, d: nat)
    requires q < Pow2(d)
    ensures Xor(2 * q, Pow2(d + 1)) == 2 * (q + Pow2(d))
  {
    hide Xor, Pow2;
    PowStep(d + 1);
    XorDouble(q, Pow2(d));
    XorPow2(q, d);
    XorCommutes(q, Pow2(d));
  }

  // One doubling of the blocks of round m.
  method DoubleBlocks(f: Field, skew: array<nat>, temp: nat, w: nat, m: nat, i: nat)
    requires f.Valid() && w == f.g.width && m <= i < w - 1 && skew.Length + 1 == Pow2(w) == f.Order()
    requires temp == Pow2(i + 1 - m) && Filled(skew[..], m, Pow2(i - m)) && Small(skew[..], f.Order())
    modifies skew
    ensures Filled(skew[..], m, Pow2(i + 1 - m)) && Small(skew[..], f.Order())
  {
    hide *;
    ghost var d: nat := i - m;
    var s := Pow2(i + 1);
    var step := Pow2(m + 1);
    var j := Pow2(m) - 1;
    ghost var q: nat := 0;
    PlaceNext(0, m);
    PowStep(d + 1);
    while j < s
      invariant 0 <= j == Place(q, m) && q <= Pow2(d)
      invariant Filled(skew[..], m, Pow2(d) + q) && Small(skew[..], f.Order())
      decreases Pow2(d) - q
    {
      assert i + 1 == m + 1 + d;
      PlaceBelow(q, m, d);
      PlaceMoves(q, m, d);
      PlaceInTable(q + Pow2(d), w, m, d);
      PlaceInTable(q, w, m, d);
      FilledIs(skew[..], m, Pow2(d) + q, q);
      NextValue(q, d);
      FillNext(skew[..], m, Pow2(d) + q, 2 * (q + Pow2(d)));
      SmallNext(skew[..], f.Order(), j + s, 2 * (q + Pow2(d)), q + Pow2(d), w, m, d);
      ghost var before := skew[..];
      ghost var value: nat := 2 * (q + Pow2(d));
      skew[j + s] := Xor(skew[j], temp);
      assert skew[..] == before[Place(q + Pow2(d), m) := value];
      PlaceNext(q, m);
      q := q + 1;
      j := j + step;
    }
    PlaceBelow(q, m, d);
    assert i + 1 == m + 1 + d;
  }

  // The places of the first 2 * 2^d blocks, and the even numbers for them.
  lemma PlaceInTable(q: nat, w: nat, m: nat, d: nat)
    requires m + d < w - 1 && q < 2 * Pow2(d)
    ensures 0 <= Place(q, m) && Place(q, m) + 1 < Pow2(w) && 2 * q < Pow2(w)
  {
    hide Pow2, Place;
    PlaceIs(q, m);
    PowStep(d + 1);
    PlaceBelow(q, m, d + 1);
    PowAtMost(m + 1 + (d + 1), w);
    PowStep(d + 2);
    PowAtMost(d + 2, w);
  }

  lemma PowAtMost(a: nat, b: nat)
    requires a <= b
    ensures Pow2(a) <= Pow2(b)
  {
    if a < b {
      Words.PowRises(a, b);
    }
  }

  lemma SmallNext(skew: seq<nat>, order: nat, p: nat, value: nat, q: nat, w: nat, m: nat, d: nat)
    requires Small(skew, order) && p < |skew| && value == 2 * q && order == Pow2(w)
    requires m + d < w - 1 && q < 2 * Pow2(d)
    ensures Small(skew[p := value], order)
  {
    hide Pow2, Place;
    PlaceInTable(q, w, m, d);
  }

  method FillRound(f: Field, skew: array<nat>, temp: array<nat>, w: nat, m: nat)
    requires f.Valid() && w == f.g.width && m < w - 1 && skew.Length + 1 == Pow2(w) == f.Order() && skew != temp
    requires TempReady(temp[..], w, m) && Filled(skew[..], m, 0) && Small(skew[..], f.Order())
    modifies skew
    ensures Filled(skew[..], m + 1, 0) && Small(skew[..], f.Order())
  {
    hide *;
    PlaceNext(0, m);
    PlaceInTable(0, w, m, 0);
    PowZero();
    FillNext(skew[..], m, 0, 0);
    SmallNext(skew[..], f.Order(), Pow2(m) - 1, 0, 0, w, m, 0);
    ghost var before := skew[..];
    skew[Pow2(m) - 1] := 0;
    assert skew[..] == before[Place(0, m) := 0];
    for i := m to w - 1
      invariant Filled(skew[..], m, Pow2(i - m)) && Small(skew[..], f.Order())
    {
      TempAt(temp[..], w, m, i);
      DoubleBlocks(f, skew, temp[i], w, m, i);
    }
    RoundFilled(skew[..], w, m);
  }

  // ---------- The table ----------

  ghost predicate TableRight(f: Field, skew: seq<nat>)
    requires f.Valid()
  {
    forall q: nat, b: nat :: EntryOf(f, skew, q, b)
  }

  ghost predicate EntryOf(f: Field, skew: seq<nat>, q: nat, b: nat)
    requires f.Valid()
  {
    0 <= Place(q, b) < |skew| && 2 * q < f.Order() ==> skew[Place(q, b)] == f.Log(2 * q)
  }

  method InitFFTSkew(f: Field) returns (fftSkew: array<nat>)
    requires f.Cantor()
    ensures fresh(fftSkew) && f.Valid() && fftSkew.Length == f.Order() - 1 && TableRight(f, fftSkew[..])
  {
    hide *;
    CantorValid(f);
    OrderEven(f);
    var w := f.g.width;
    var temp := new nat[w - 1](_ => 0);
    for i := 1 to w
      invariant forall j | 0 <= j < i - 1 :: temp[j] == Pow2(j + 1)
    {
      temp[i - 1] := Pow2(i);
    }
    TempStart(temp[..], w);
    fftSkew := new nat[f.Order() - 1](_ => 0);
    NothingFilled(fftSkew[..]);
    SmallZeros(fftSkew[..], f.Order());
    for m := 0 to w - 1
      invariant TempReady(temp[..], w, m) && Filled(fftSkew[..], m, 0) && Small(fftSkew[..], f.Order())
    {
      FillRound(f, fftSkew, temp, w, m);
      NextRound(f, temp, w, m);
    }
    ghost var values := fftSkew[..];
    for i := 0 to f.Order() - 1
      invariant Small(values, f.Order())
      invariant forall j | i <= j < f.Order() - 1 :: fftSkew[j] == values[j]
      invariant forall j | 0 <= j < i :: values[j] < f.Order() && fftSkew[j] == f.Log(values[j])
    {
      SmallAt(values, f.Order(), i);
      fftSkew[i] := f.Log(fftSkew[i]);
    }
    TableDone(f, values, fftSkew[..], w);
  }

  lemma SmallZeros(skew: seq<nat>, order: nat)
    requires order > 0 && forall i | 0 <= i < |skew| :: skew[i] == 0
    ensures Small(skew, order)
  {
  }

  lemma SmallAt(skew: seq<nat>, order: nat, i: nat)
    requires Small(skew, order) && i < |skew|
    ensures skew[i] < order
  {
  }

  lemma TempStart(temp: seq<nat>, w: nat)
    requires w > 0 && |temp| == w - 1 && forall j | 0 <= j < w - 1 :: temp[j] == Pow2(j + 1)
    ensures TempReady(temp, w, 0)
  {
  }

  // The one place that no round fills belongs to the factor zero.
  lemma TableDone(f: Field, values: seq<nat>, skew: seq<nat>, w: nat)
    requires f.Valid() && w == f.g.width && w > 0 && |values| == |skew| == f.Order() - 1 == Pow2(w) - 1
    requires Filled(values, w - 1, 0)
    requires forall j | 0 <= j < |skew| :: values[j] < f.Order() && skew[j] == f.Log(values[j])
    ensures TableRight(f, skew)
  {
    hide Place, Pow2, Field.Valid, Field.Order, Field.Log;
    forall q: nat, b: nat ensures EntryOf(f, skew, q, b) {
      assert FilledAt(values, w - 1, 0, q, b);
      if Place(q, b) < |skew| && b >= w - 1 {
        HighPlace(q, b, w);
      }
    }
  }

  lemma HighPlace(q: nat, b: nat, w: nat)
    requires w > 0 && b >= w - 1 && Place(q, b) + 1 < Pow2(w)
    ensures q == 0
  {
    hide Pow2, Place;
    PlaceIs(q, b);
    PowAtMost(w - 1, b);
    PowStep(w);
    if q > 0 {
      MulMonotone(3, 2 * q + 1, Pow2(b));
    }
  }
}
