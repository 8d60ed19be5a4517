// fwht and fwht8: the transform in place, modulo order - 1, where both 0 and order - 1 stand
// for zero, and the error locator computed with it.
module WalshLoops {

  import opened BitXor
  import opened Modular
  import opened Walsh
  import opened ForwardLoops
  import opened InverseLoops

  // ---------- addMod and subMod ----------

  // Sums and differences are 64 bits wide before they are cut to the field's width.
  const WIDE: nat := 0x1_0000_0000_0000_0000

  function AddMod(a: nat, b: nat, order: nat): nat
    requires order > 0
  {
    var sum := a + b;
    (sum + sum / order) % order
  }

  function SubMod(a: nat, b: nat, order: nat): nat
    requires order > 0
  {
    var dif := (a - b) % WIDE;
    (dif + dif / order) % WIDE % order
  }

  lemma AddModCong(a: nat, b: nat, order: nat)
    requires a < order && b < order && order > 2
    ensures AddMod(a, b, order) < order && Cong(AddMod(a, b, order), a + b, order - 1)
  {
    hide AddMod;
    AddModValue(a, b, order);
    if a + b >= order {
      CongShift(a + b, -1, order - 1);
    }
  }

  lemma AddModValue(a: nat, b: nat, order: nat)
    requires a < order && b < order
    ensures AddMod(a, b, order) == if a + b < order then a + b else a + b - (order - 1)
  {
    var sum := a + b;
    if sum < order {
      ModUnique(sum, 0, sum, order);
    } else {
      ModUnique(sum, 1, sum - order, order);
      ModUnique(sum + 1, 1, sum + 1 - order, order);
    }
  }

  // order is 2^8 or 2^16.
  lemma SubModCong(a: nat, b: nat, order: nat)
    requires a < order && b < order && (order == 256 || order == 65536)
    ensures SubMod(a, b, order) < order && Cong(SubMod(a, b, order), a - b, order - 1)
    ensures SubMod(a, b, order) == if a >= b then a - b else a - b + order - 1
  {
    SubModValue(a, b, order, if order == 256 then 0x100_0000_0000_0000 else 0x1_0000_0000_0000,
                if order == 256 then 0x1_0000_0000_0000 else 0x1_0000_0000);
    if a < b {
      CongShift(a - b, 1, order - 1);
    }
  }

  lemma SubModValue(a: nat, b: nat, order: nat, c: nat, e: nat)
    requires a < order && b < order && order > 0 && WIDE == c * order && c == e * order && e > 0
    ensures SubMod(a, b, order) == if a >= b then a - b else a - b + order - 1
  {
    if a >= b {
      ModUnique(a - b, 0, a - b, WIDE);
      ModUnique(a - b, 0, a - b, order);
    } else {
      var d := b - a;
      ModUnique(a - b, -1, WIDE - d, WIDE);
      assert (c - 1) * order == c * order - order;
      ModUnique(WIDE - d, c - 1, order - d, order);
      assert (e - 1) * order == e * order - order;
      MulMonotone(1, e, order);
      ModUnique(WIDE - d + (c - 1), 1, c - 1 - d, WIDE);
      ModUnique(c - 1 - d, e - 1, order - 1 - d, order);
    }
  }

  // ---------- Four entries through two layers ----------

  datatype Four = Four(t0: nat, t1: nat, t2: nat, t3: nat)

  // fwht2alt on the first and second pair of entries, then across the pairs.
  function Fwht4(x: Four, order: nat): Four
    requires order > 0
  {
    var y0, y1 := AddMod(x.t0, x.t1, order), SubMod(x.t0, x.t1, order);
    var y2, y3 := AddMod(x.t2, x.t3, order), SubMod(x.t2, x.t3, order);
    Four(AddMod(y0, y2, order), AddMod(y1, y3, order), SubMod(y0, y2, order), SubMod(y1, y3, order))
  }

  predicate Field(order: nat) {
    order == 256 || order == 65536
  }

  ghost predicate Stands(v: nat, x: int, order: nat)
    requires order > 1
  {
    v < order && Cong(v, x, order - 1)
  }

  lemma PairStands(a: nat, b: nat, x: int, y: int, order: nat)
    requires Field(order) && Stands(a, x, order) && Stands(b, y, order)
    ensures Stands(AddMod(a, b, order), x + y, order) && Stands(SubMod(a, b, order), x - y, order)
  {
    AddModCong(a, b, order);
    SubModCong(a, b, order);
    CongArithmetic(a, x, b, y, order - 1);
  }

  lemma FourStand(x: Four, a: int, b: int, c: int, d: int, order: nat)
    requires Field(order)
    requires Stands(x.t0, a, order) && Stands(x.t1, b, order) && Stands(x.t2, c, order) && Stands(x.t3, d, order)
    ensures var z := Fwht4(x, order);
            && Stands(z.t0, (a + b) + (c + d), order) && Stands(z.t1, (a - b) + (c - d), order)
            && Stands(z.t2, (a + b) - (c + d), order) && Stands(z.t3, (a - b) - (c - d), order)
  {
    hide AddMod, SubMod, Stands;
    var y0, y1 := AddMod(x.t0, x.t1, order), SubMod(x.t0, x.t1, order);
    var y2, y3 := AddMod(x.t2, x.t3, order), SubMod(x.t2, x.t3, order);
    PairStands(x.t0, x.t1, a, b, order);
    PairStands(x.t2, x.t3, c, d, order);
    PairStands(y0, y2, a + b, c + d, order);
    PairStands(y1, y3, a - b, c - d, order);
  }

  // ---------- One block ----------

  ghost predicate MixedAt(before: seq<nat>, after: seq<nat>, d: nat, i: nat, order: nat)
    requires |before| == |after| && i + 3 * d < |before| && order > 0
  {
    Four(after[i], after[i + d], after[i + 2 * d], after[i + 3 * d])
    == Fwht4(Four(before[i], before[i + d], before[i + 2 * d], before[i + 3 * d]), order)
  }

  ghost predicate StillAt(before: seq<nat>, after: seq<nat>, d: nat, i: nat)
    requires |before| == |after| && i + 3 * d < |before|
  {
    Four(after[i], after[i + d], after[i + 2 * d], after[i + 3 * d])
    == Four(before[i], before[i + d], before[i + 2 * d], before[i + 3 * d])
  }

  // uint16 arithmetic.
  function Index16(x: nat): nat {
    x % 65536
  }

  lemma IndexFits(x: nat)
    requires x < 65536
    ensures Index16(x) == x
  {
  }

  // One quadruple, with 16-bit indices.
  method FwhtStep(data: array<nat>, off: nat, dist: nat, order: nat)
    requires Field(order) && data.Length == order && dist > 0 && off + 3 * dist < order
    modifies data
    ensures MixedAt(old(data[..]), data[..], dist, off, order)
    ensures forall j | 0 <= j < order && j != off && j != off + dist && j != off + 2 * dist && j != off + 3 * dist ::
      data[j] == old(data[j])
  {
    hide Fwht4, Index16;
    var i1, i2, i3 := Index16(off + dist), Index16(off + dist * 2), Index16(off + dist * 3);
    IndexFits(off + dist);
    IndexFits(off + dist * 2);
    IndexFits(off + dist * 3);
    var t := Fwht4(Four(data[off], data[i1], data[i2], data[i3]), order);
    data[off] := t.t0;
    data[i1] := t.t1;
    data[i2] := t.t2;
    data[i3] := t.t3;
  }

  // The loop over the dist entries from r, whose 16-bit indices never wrap.
  method FwhtBlock(data: array<nat>, r: nat, step: nat, order: nat)
    requires Field(order) && data.Length == order && step > 0 && r + 4 * step <= order
    modifies data
    ensures forall i | r <= i < r + step :: MixedAt(old(data[..]), data[..], step, i, order)
    ensures forall j | 0 <= j < order && (j < r || j >= r + 4 * step) :: data[j] == old(data[j])
  {
    hide Fwht4, MixedAt, Index16;
    ghost var before := data[..];
    var dist := Index16(step);
    var off := Index16(r);
    IndexFits(step);
    IndexFits(r);
    for i := 0 to dist
      invariant dist == step && off == r + i
      invariant forall j | r <= j < off :: MixedAt(before, data[..], step, j, order)
      invariant forall j | off <= j < r + step :: StillAt(before, data[..], step, j)
      invariant forall j | 0 <= j < order && (j < r || j >= r + 4 * step) :: data[j] == before[j]
    {
      ghost var now := data[..];
      FwhtStep(data, off, dist, order);
      Progress(before, now, data[..], r, step, off, order);
      IndexFits(off + 1);
      off := Index16(off + 1);
    }
  }

  lemma Progress(before: seq<nat>, now: seq<nat>, after: seq<nat>, r: nat, d: nat, off: nat, order: nat)
    requires order > 0 && d > 0 && |before| == |now| == |after| && r <= off < r + d && r + 4 * d <= |before|
    requires MixedAt(now, after, d, off, order)
    requires forall j | 0 <= j < |now| && j != off && j != off + d && j != off + 2 * d && j != off + 3 * d ::
      after[j] == now[j]
    requires forall j | r <= j < off :: MixedAt(before, now, d, j, order)
    requires forall j | off <= j < r + d :: StillAt(before, now, d, j)
    ensures forall j | r <= j < off + 1 :: MixedAt(before, after, d, j, order)
    ensures forall j | off + 1 <= j < r + d :: StillAt(before, after, d, j)
  {
    hide Fwht4;
    assert StillAt(before, now, d, off);
    forall j | r <= j < r + d && j != off ensures StillAt(now, after, d, j) {
    }
    forall j | r <= j < off ensures MixedAt(before, after, d, j, order) {
      assert MixedAt(before, now, d, j, order) && StillAt(now, after, d, j);
    }
    forall j | off + 1 <= j < r + d ensures StillAt(before, after, d, j) {
      assert StillAt(before, now, d, j) && StillAt(now, after, d, j);
    }
  }

  // Entry i of the transform of the 2^k entries at lo.
  function WhtAt(x: seq<int>, k: nat, lo: nat, i: nat): int {
    if lo + Pow2(k) <= |x| && i < Pow2(k) then Wht(x[lo..lo + Pow2(k)], k)[i] else 0
  }

  lemma WhtTwoLevels(b0: seq<int>, b1: seq<int>, b2: seq<int>, b3: seq<int>, k: nat)
    requires k >= 2 && |b0| == |b1| == |b2| == |b3| == Pow2(k - 2)
    ensures Pow2(k) == 4 * |b0|
    ensures var x0, x1, x2, x3 := Wht(b0, k - 2), Wht(b1, k - 2), Wht(b2, k - 2), Wht(b3, k - 2);
            Wht(b0 + b1 + b2 + b3, k)
            == Plus(Plus(x0, x1), Plus(x2, x3)) + Plus(Minus(x0, x1), Minus(x2, x3))
             + Minus(Plus(x0, x1), Plus(x2, x3)) + Minus(Minus(x0, x1), Minus(x2, x3))
  {
    hide *;
    PowStep(k);
    PowStep(k - 1);
    var d := |b0|;
    assert b0 + b1 + b2 + b3 == (b0 + b1) + (b2 + b3);
    WhtStep((b0 + b1) + (b2 + b3), k, 2 * d);
    JoinHalves(b0 + b1, b2 + b3);
    WhtStep(b0 + b1, k - 1, d);
    JoinHalves(b0, b1);
    WhtStep(b2 + b3, k - 1, d);
    JoinHalves(b2, b3);
    var x0, x1, x2, x3 := Wht(b0, k - 2), Wht(b1, k - 2), Wht(b2, k - 2), Wht(b3, k - 2);
    JoinPlus(Plus(x0, x1), Minus(x0, x1), Plus(x2, x3), Minus(x2, x3));
    var p, q := Plus(Plus(x0, x1), Plus(x2, x3)), Plus(Minus(x0, x1), Minus(x2, x3));
    var u, v := Minus(Plus(x0, x1), Plus(x2, x3)), Minus(Minus(x0, x1), Minus(x2, x3));
    assert (p + q) + (u + v) == p + q + u + v;
  }

  ghost predicate BlockStands(w: seq<nat>, x: seq<int>, k: nat, lo: nat, order: nat) {
    && order > 1 && lo + Pow2(k) <= |w| && |w| == |x|
    && forall i: nat | i < Pow2(k) :: StandsAt(w, x, k, lo, order, i)
  }

  ghost predicate StandsAt(w: seq<nat>, x: seq<int>, k: nat, lo: nat, order: nat, i: nat)
    requires order > 1 && lo + i < |w|
  {
    Stands(w[lo + i], WhtAt(x, k, lo, i), order)
  }

  lemma QuartersOf(x: seq<int>, k: nat, lo: nat, d: nat, i: nat)
    requires k >= 2 && d == Pow2(k - 2) && Pow2(k) == 4 * d && lo + 4 * d <= |x| && i < d
    ensures var a, b, c, e := WhtAt(x, k - 2, lo, i), WhtAt(x, k - 2, lo + d, i),
                              WhtAt(x, k - 2, lo + 2 * d, i), WhtAt(x, k - 2, lo + 3 * d, i);
            && WhtAt(x, k, lo, i) == (a + b) + (c + e) && WhtAt(x, k, lo, d + i) == (a - b) + (c - e)
            && WhtAt(x, k, lo, 2 * d + i) == (a + b) - (c + e) && WhtAt(x, k, lo, 3 * d + i) == (a - b) - (c - e)
  {
    hide Wht, Pow2;
    FourQuarters(x, lo, d);
    WhtTwoLevels(x[lo..lo + d], x[lo + d..lo + 2 * d], x[lo + 2 * d..lo + 3 * d], x[lo + 3 * d..lo + 4 * d], k);
  }

  lemma QuarterStands(w: seq<nat>, w': seq<nat>, x: seq<int>, k: nat, lo: nat, d: nat, order: nat, i: nat)
    requires Field(order) && k >= 2 && d == Pow2(k - 2) > i && Pow2(k) == 4 * d
    requires |w| == |x| == |w'| && lo + 4 * d <= |w|
    requires StandsAt(w, x, k - 2, lo, order, i) && StandsAt(w, x, k - 2, lo + d, order, i)
    requires StandsAt(w, x, k - 2, lo + 2 * d, order, i) && StandsAt(w, x, k - 2, lo + 3 * d, order, i)
    requires MixedAt(w, w', d, lo + i, order)
    ensures StandsAt(w', x, k, lo, order, i) && StandsAt(w', x, k, lo, order, d + i)
    ensures StandsAt(w', x, k, lo, order, 2 * d + i) && StandsAt(w', x, k, lo, order, 3 * d + i)
  {
    hide WhtAt, Stands, Fwht4, Pow2;
    QuartersOf(x, k, lo, d, i);
    FourStand(Four(w[lo + i], w[lo + i + d], w[lo + i + 2 * d], w[lo + i + 3 * d]),
              WhtAt(x, k - 2, lo, i), WhtAt(x, k - 2, lo + d, i),
              WhtAt(x, k - 2, lo + 2 * d, i), WhtAt(x, k - 2, lo + 3 * d, i), order);
  }

  lemma BlockMixed(w: seq<nat>, w': seq<nat>, x: seq<int>, k: nat, lo: nat, d: nat, order: nat)
    requires Field(order) && k >= 2 && d == Pow2(k - 2) > 0 && Pow2(k) == 4 * d && |w'| == |w| && lo + 4 * d <= |w|
    requires BlockStands(w, x, k - 2, lo, order) && BlockStands(w, x, k - 2, lo + d, order)
    requires BlockStands(w, x, k - 2, lo + 2 * d, order) && BlockStands(w, x, k - 2, lo + 3 * d, order)
    requires forall i | lo <= i < lo + d :: MixedAt(w, w', d, i, order)
    ensures BlockStands(w', x, k, lo, order)
  {
    hide StandsAt, MixedAt, Pow2;
    forall j: nat | j < 4 * d ensures StandsAt(w', x, k, lo, order, j) {
      var i := if j < d then j else if j < 2 * d then j - d else if j < 3 * d then j - 2 * d else j - 3 * d;
      assert MixedAt(w, w', d, lo + i, order);
      QuarterStands(w, w', x, k, lo, d, order, i);
    }
  }

  // ---------- The loops over blocks and layers ----------

  ghost predicate StandBefore(w: seq<nat>, x: seq<int>, k: nat, order: nat, end: nat) {
    forall p: nat | p < end && At(p, k) < |x| :: BlockStands(w, x, k, At(p, k), order)
  }

  ghost predicate StandFrom(w: seq<nat>, x: seq<int>, k: nat, order: nat, start: nat) {
    forall p: nat | p >= start && At(p, k) < |x| :: BlockStands(w, x, k, At(p, k), order)
  }

  lemma BlockStandsFrame(w: seq<nat>, w': seq<nat>, x: seq<int>, k: nat, lo: nat, order: nat)
    requires BlockStands(w, x, k, lo, order) && |w'| == |w|
    requires forall i | lo <= i < lo + Pow2(k) :: w'[i] == w[i]
    ensures BlockStands(w', x, k, lo, order)
  {
    hide WhtAt, Stands, Pow2;
    forall i: nat | i < Pow2(k) ensures StandsAt(w', x, k, lo, order, i) {
      assert StandsAt(w, x, k, lo, order, i);
    }
  }

  // Block q is four blocks of the level below.
  lemma SubBlocksStand(w: seq<nat>, x: seq<int>, k: nat, q: nat, order: nat, d: nat, n: nat)
    requires 2 <= k <= n && |x| == Pow2(n) && d == Pow2(k - 2) && At(q, k) < |x|
    requires StandFrom(w, x, k - 2, order, 4 * q)
    ensures Pow2(k) == 4 * d && d > 0 && At(q, k) + 4 * d <= |x|
    ensures BlockStands(w, x, k - 2, At(q, k), order) && BlockStands(w, x, k - 2, At(q, k) + d, order)
    ensures BlockStands(w, x, k - 2, At(q, k) + 2 * d, order) && BlockStands(w, x, k - 2, At(q, k) + 3 * d, order)
  {
    hide At, BlockStands, Pow2;
    AtQuarter(q, k);
    AtFits(q, k, n);
    PowPositive(k - 2);
    assert At(4 * q + 1, k - 2) < |x| && At(4 * q + 2, k - 2) < |x| && At(4 * q + 3, k - 2) < |x|;
  }

  lemma StepFwhtBlock(w: seq<nat>, w': seq<nat>, x: seq<int>, k: nat, q: nat, order: nat, d: nat, n: nat)
    requires Field(order) && 2 <= k <= n && d == Pow2(k - 2) && |w| == |w'| && |x| == Pow2(n) == |w| && At(q, k) < |x|
    requires StandBefore(w, x, k, order, q) && StandFrom(w, x, k - 2, order, 4 * q)
    requires d > 0 && At(q, k) + 4 * d <= |w|
    requires forall i | At(q, k) <= i < At(q, k) + d :: MixedAt(w, w', d, i, order)
    requires forall j | 0 <= j < |w| && (j < At(q, k) || j >= At(q, k) + 4 * d) :: w'[j] == w[j]
    ensures StandBefore(w', x, k, order, q + 1) && StandFrom(w', x, k - 2, order, 4 * (q + 1))
  {
    hide At, StandsAt, MixedAt, Pow2;
    var lower: nat := k - 2;
    SubBlocksStand(w, x, k, q, order, d, n);
    BlockMixed(w, w', x, k, At(q, k), d, order);
    forall p: nat | p < q + 1 && At(p, k) < |x| ensures BlockStands(w', x, k, At(p, k), order) {
      if p < q {
        AtMonotonic(p + 1, q, k);
        AtNext(p, k);
        BlockStandsFrame(w, w', x, k, At(p, k), order);
      }
    }
    forall p: nat | p >= 4 * (q + 1) && At(p, lower) < |x| ensures BlockStands(w', x, lower, At(p, lower), order) {
      AtQuarter(q + 1, k);
      AtNext(q, k);
      AtMonotonic(4 * (q + 1), p, lower);
      BlockStandsFrame(w, w', x, lower, At(p, lower), order);
    }
  }

  lemma WhtOfZeros(z: seq<int>, k: nat)
    requires |z| == Pow2(k) && forall i | 0 <= i < |z| :: z[i] == 0
    ensures forall i | 0 <= i < |z| :: Wht(z, k)[i] == 0
  {
    hide Wht, Pow2;
    WhtLinear(z, z, k);
    assert Minus(z, z) == z;
  }

  lemma ZeroAt(x: seq<int>, k: nat, lo: nat, i: nat)
    requires lo + Pow2(k) <= |x| && forall j | lo <= j < lo + Pow2(k) :: x[j] == 0
    ensures WhtAt(x, k, lo, i) == 0
  {
    hide Wht, Pow2;
    WhtOfZeros(x[lo..lo + Pow2(k)], k);
  }

  lemma ZeroBlockStands(w: seq<nat>, x: seq<int>, k: nat, lo: nat, d: nat, order: nat)
    requires k >= 2 && d == Pow2(k - 2) > 0 && Pow2(k) == 4 * d && lo + 4 * d <= |w|
    requires BlockStands(w, x, k - 2, lo, order) && BlockStands(w, x, k - 2, lo + d, order)
    requires BlockStands(w, x, k - 2, lo + 2 * d, order) && BlockStands(w, x, k - 2, lo + 3 * d, order)
    requires |x| == |w| && forall i | lo <= i < lo + 4 * d :: x[i] == 0
    ensures BlockStands(w, x, k, lo, order)
  {
    hide Pow2, Stands, WhtAt;
    forall j: nat | j < 4 * d ensures StandsAt(w, x, k, lo, order, j) {
      var s := if j < d then 0 else if j < 2 * d then d else if j < 3 * d then 2 * d else 3 * d;
      ZeroAt(x, k, lo, j);
      ZeroAt(x, k - 2, lo + s, j - s);
      assert StandsAt(w, x, k - 2, lo + s, order, j - s);
    }
  }

  lemma EndFwhtLevel(w: seq<nat>, x: seq<int>, k: nat, q: nat, order: nat, mtrunc: nat, n: nat)
    requires 2 <= k <= n && |x| == Pow2(n) == |w| && At(q, k) >= mtrunc && forall i | mtrunc <= i < |x| :: x[i] == 0
    requires StandBefore(w, x, k, order, q) && StandFrom(w, x, k - 2, order, 4 * q)
    ensures StandFrom(w, x, k, order, 0)
  {
    hide At, BlockStands, Pow2;
    forall p: nat | At(p, k) < |x| ensures BlockStands(w, x, k, At(p, k), order) {
      if p >= q {
        AtMonotonic(q, p, k);
        SubBlocksStand(w, x, k, p, order, Pow2(k - 2), n);
        ZeroBlockStands(w, x, k, At(p, k), Pow2(k - 2), order);
      }
    }
  }

  method FwhtLevel(data: array<nat>, mtrunc: nat, dist: nat, order: nat, ghost k: nat, ghost n: nat, ghost x: seq<int>)
    requires Field(order) && 2 <= k <= n && dist == Pow2(k - 2) && order == Pow2(n) == data.Length == |x|
    requires mtrunc <= order
    requires (forall i | mtrunc <= i < |x| :: x[i] == 0) && StandFrom(data[..], x, k - 2, order, 0)
    modifies data
    ensures StandFrom(data[..], x, k, order, 0)
  {
    hide MixedAt, Pow2, At, StandBefore, StandFrom;
    var r := 0;
    ghost var q := 0;
    AtNext(0, k);
    NoneBefore(data[..], x, k, order);
    while r < mtrunc
      invariant r == At(q, k)
      invariant StandBefore(data[..], x, k, order, q) && StandFrom(data[..], x, k - 2, order, 4 * q)
      decreases mtrunc - r
    {
      AtFits(q, k, n);
      AtQuarter(q, k);
      AtNext(q, k);
      PowPositive(k - 2);
      ghost var before := data[..];
      FwhtBlock(data, r, dist, order);
      StepFwhtBlock(before, data[..], x, k, q, order, dist, n);
      r := r + 4 * dist;
      q := q + 1;
    }
    EndFwhtLevel(data[..], x, k, q, order, mtrunc, n);
  }

  lemma NoneBefore(w: seq<nat>, x: seq<int>, k: nat, order: nat)
    ensures StandBefore(w, x, k, order, 0)
  {
  }

  lemma OneEach(w: seq<nat>, x: seq<int>, order: nat)
    requires order > 1 && w == x && forall i | 0 <= i < |w| :: w[i] < order
    ensures StandFrom(w, x, 0, order, 0)
  {
    hide Wht;
    PowZero();
    forall p: nat | At(p, 0) < |x| ensures BlockStands(w, x, 0, At(p, 0), order) {
      AtZero(p);
      WhtBase(x[p..p + 1]);
      assert StandsAt(w, x, 0, p, order, 0);
    }
  }

  lemma AllInOne(w: seq<nat>, x: seq<int>, n: nat, order: nat)
    requires |w| == |x| == Pow2(n) && StandFrom(w, x, n, order, 0)
    ensures order > 1 && forall i | 0 <= i < |w| :: Stands(w[i], Wht(x, n)[i], order)
  {
    hide Wht, Pow2, Stands;
    AtNext(0, n);
    assert BlockStands(w, x, n, At(0, n), order);
    assert x[0..Pow2(n)] == x;
    forall i | 0 <= i < |w| ensures Stands(w[i], Wht(x, n)[i], order) {
      assert StandsAt(w, x, n, 0, order, i);
    }
  }

  lemma NoLayerLeft(k: nat, n: nat)
    requires k <= n && k % 2 == n % 2 && 4 * Pow2(k) > Pow2(n)
    ensures k == n
  {
    if k < n {
      PowStep(k + 1);
      PowStep(k + 2);
      PowMonotonic(k + 2, n);
    }
  }

  // fwht and fwht8: every entry stands for its entry of the integer transform.
  method Fwht(data: array<nat>, mtrunc: nat, order: nat, ghost n: nat)
    requires Field(order) && order == Pow2(n) == data.Length && n % 2 == 0 && mtrunc <= order
    requires forall i | 0 <= i < order :: data[i] < order
    requires forall i | mtrunc <= i < order :: data[i] == 0
    modifies data
    ensures forall i | 0 <= i < order :: Stands(data[i], Wht(old(data[..]), n)[i], order)
  {
    hide Wht, StandFrom, At, Pow2, Stands;
    ghost var x: seq<int> := data[..];
    var dist, dist4 := 1, 4;
    ghost var k: nat := 0;
    PowZero();
    PowPositive(n);
    OneEach(data[..], x, order);
    while dist4 <= order
      invariant k <= n && k % 2 == 0 && dist == Pow2(k) && dist4 == 4 * dist
      invariant StandFrom(data[..], x, k, order, 0)
      decreases n - k
    {
      PowStep(k + 1);
      PowStep(k + 2);
      PowInjective(k + 2, n);
      FwhtLevel(data, mtrunc, dist, order, k + 2, n, x);
      dist := dist4;
      dist4 := dist4 * 4;
      k := k + 2;
    }
    NoLayerLeft(k, n);
    AllInOne(data[..], x, n, order);
  }
}
