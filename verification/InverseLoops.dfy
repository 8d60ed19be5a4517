// ifftDITDecoder, ifftDITEncoder and their 8-bit twins: in-place loops that unroll two layers
// at a time and skip what is known to be zero, proved against the transform by halves.
module InverseLoops {

  import opened BitXor
  import opened Shards
  import opened Transform
  import opened ForwardLoops

  // ---------- One butterfly ----------

  // ifftDIT2, or sliceXor alone when the factor is zero.
  method ButterflyUp(t: Leopard, work: array<Shard>, x: nat, y: nat, s: nat)
    requires x < work.Length && y < work.Length && x != y && s < |t.skew|
    modifies work
    ensures work[y] == Xor2(old(work[y]), old(work[x]))
    ensures work[x] == Xor2(old(work[x]), t.Twiddle(s, work[y]))
    ensures forall i | 0 <= i < work.Length && i != x && i != y :: work[i] == old(work[i])
  {
    hide Xor2;
    work[y] := Xor2(work[y], work[x]);
    if t.skew[s] == t.modulus {
      ClearChangesNothing(work[x], |work[y]|);
    } else {
      work[x] := Xor2(work[x], t.mul(t.skew[s], work[y]));
    }
  }

  // ---------- Two layers at once ----------

  // The four shards after both layers, the first with s01 and s23, the second with s02.
  function Up4(t: Leopard, x: Quad, s01: nat, s23: nat, s02: nat): Quad
    requires s01 < |t.skew| && s23 < |t.skew| && s02 < |t.skew|
  {
    var y1, y3 := Xor2(x.x1, x.x0), Xor2(x.x3, x.x2);
    var y0, y2 := Xor2(x.x0, t.Twiddle(s01, y1)), Xor2(x.x2, t.Twiddle(s23, y3));
    var z2, z3 := Xor2(y2, y0), Xor2(y3, y1);
    Quad(Xor2(y0, t.Twiddle(s02, z2)), Xor2(y1, t.Twiddle(s02, z3)), z2, z3)
  }

  // ifftDIT4Ref
  method IfftDit4(t: Leopard, work: array<Shard>, i: nat, dist: nat, s01: nat, s23: nat, s02: nat)
    requires dist > 0 && i + 3 * dist < work.Length
    requires s01 < |t.skew| && s23 < |t.skew| && s02 < |t.skew|
    modifies work
    ensures Quad(work[i], work[i + dist], work[i + 2 * dist], work[i + 3 * dist])
         == Up4(t, old(Quad(work[i], work[i + dist], work[i + 2 * dist], work[i + 3 * dist])), s01, s23, s02)
    ensures forall j | 0 <= j < work.Length && j != i && j != i + dist && j != i + 2 * dist && j != i + 3 * dist ::
      work[j] == old(work[j])
  {
    hide Xor2, Leopard.Twiddle;
    ButterflyUp(t, work, i, i + dist, s01);
    ButterflyUp(t, work, i + 2 * dist, i + 3 * dist, s23);
    ButterflyUp(t, work, i, i + 2 * dist, s02);
    ButterflyUp(t, work, i + dist, i + 3 * dist, s02);
  }

  // Position i of the block at r has been through both layers.
  ghost predicate RaisedAt(t: Leopard, before: seq<Shard>, after: seq<Shard>, off: nat, r: nat, d: nat, i: nat)
    requires |before| == |after| && i + 3 * d < |before| && d > 0 && off + r + 3 * d <= |t.skew|
  {
    Quad(after[i], after[i + d], after[i + 2 * d], after[i + 3 * d])
    == Up4(t, Quad(before[i], before[i + d], before[i + 2 * d], before[i + 3 * d]),
           off + r + d - 1, off + r + 3 * d - 1, off + r + 2 * d - 1)
  }

  // The loop over the quadruples of the block at r, whose skew entries start at off + r.
  method IfftBlock(t: Leopard, work: array<Shard>, r: nat, dist: nat, off: nat)
    requires dist > 0 && r + 4 * dist <= work.Length && off + r + 3 * dist <= |t.skew|
    modifies work
    ensures forall i | r <= i < r + dist :: RaisedAt(t, old(work[..]), work[..], off, r, dist, i)
    ensures forall j | 0 <= j < work.Length && (j < r || j >= r + 4 * dist) :: work[j] == old(work[j])
  {
    hide Up4;
    ghost var before := work[..];
    var iend := r + dist;
    var log01, log02, log23 := off + iend - 1, off + iend + dist - 1, off + iend + dist * 2 - 1;
    for i := r to iend
      invariant forall j | r <= j < i :: RaisedAt(t, before, work[..], off, r, dist, j)
      invariant forall j | i <= j < iend :: KeptAt(before, work[..], dist, j)
      invariant forall j | 0 <= j < work.Length && (j < r || j >= r + 4 * dist) :: work[j] == before[j]
    {
      ghost var now := work[..];
      assert KeptAt(before, now, dist, i);
      IfftDit4(t, work, i, dist, log01, log23, log02);
      BlockProgressUp(t, before, now, work[..], off, r, dist, i);
    }
  }

  // One more quadruple of the block at r is done.
  lemma BlockProgressUp(t: Leopard, before: seq<Shard>, now: seq<Shard>, after: seq<Shard>,
                        off: nat, r: nat, d: nat, i: nat)
    requires d > 0 && |before| == |now| == |after| && r <= i < r + d && r + 4 * d <= |before|
    requires off + r + 3 * d <= |t.skew|
    requires Quad(after[i], after[i + d], after[i + 2 * d], after[i + 3 * d])
          == Up4(t, Quad(now[i], now[i + d], now[i + 2 * d], now[i + 3 * d]),
                 off + r + d - 1, off + r + 3 * d - 1, off + r + 2 * d - 1)
    requires forall j | 0 <= j < |now| && j != i && j != i + d && j != i + 2 * d && j != i + 3 * d ::
      after[j] == now[j]
    requires forall j | r <= j < i :: RaisedAt(t, before, now, off, r, d, j)
    requires forall j | i <= j < r + d :: KeptAt(before, now, d, j)
    ensures forall j | r <= j < i + 1 :: RaisedAt(t, before, after, off, r, d, j)
    ensures forall j | i + 1 <= j < r + d :: KeptAt(before, after, d, j)
  {
    hide Up4;
    assert KeptAt(before, now, d, i);
    forall j | r <= j < r + d && j != i ensures KeptAt(now, after, d, j) {
    }
    forall j | r <= j < i ensures RaisedAt(t, before, after, off, r, d, j) {
      assert RaisedAt(t, before, now, off, r, d, j) && KeptAt(now, after, d, j);
    }
    forall j | i + 1 <= j < r + d ensures KeptAt(before, after, d, j) {
      assert KeptAt(before, now, d, j) && KeptAt(now, after, d, j);
    }
  }

  lemma ButterfliesUpJoin(t: Leopard, a: seq<Shard>, a': seq<Shard>, b: seq<Shard>, b': seq<Shard>, s: nat)
    requires |a| == |b| && |a'| == |b'| && s < |t.skew|
    ensures t.HighUp(a + a', b + b') == t.HighUp(a, b) + t.HighUp(a', b')
    ensures t.LowUp(a + a', b + b', s) == t.LowUp(a, b, s) + t.LowUp(a', b', s)
  {
    hide Xor2, Leopard.Twiddle;
  }

  // The transform of the block of 2^k shards at lo, for skew entries from off + lo.
  function IfftAt(t: Leopard, w: seq<Shard>, k: nat, lo: nat, off: nat): (r: seq<Shard>)
    requires lo + Pow2(k) <= |w| && off + lo + Pow2(k) <= |t.skew| + 1
    ensures |r| == Pow2(k)
  {
    t.Ifft(w[lo..lo + Pow2(k)], k, off + lo)
  }

  // Two levels of the definition on four quarters.
  lemma IfftTwoLevels(t: Leopard, b0: seq<Shard>, b1: seq<Shard>, b2: seq<Shard>, b3: seq<Shard>, k: nat, off: nat)
    requires k >= 2 && |b0| == |b1| == |b2| == |b3| == Pow2(k - 2) && off + 4 * |b0| <= |t.skew| + 1
    ensures Pow2(k) == 4 * |b0| && |b0| > 0
    ensures var d := |b0|;
            var a0, a1 := t.Ifft(b0, k - 2, off), t.Ifft(b1, k - 2, off + d);
            var a2, a3 := t.Ifft(b2, k - 2, off + 2 * d), t.Ifft(b3, k - 2, off + 3 * d);
            var y0, y1 := t.LowUp(a0, a1, off + d - 1), t.HighUp(a0, a1);
            var y2, y3 := t.LowUp(a2, a3, off + 3 * d - 1), t.HighUp(a2, a3);
            t.Ifft(b0 + b1 + b2 + b3, k, off)
            == t.LowUp(y0, y2, off + 2 * d - 1) + t.LowUp(y1, y3, off + 2 * d - 1)
             + t.HighUp(y0, y2) + t.HighUp(y1, y3)
  {
    hide *;
    PowStep(k);
    PowStep(k - 1);
    var d := |b0|;
    var l, h, s := b0 + b1, b2 + b3, off + 2 * d - 1;
    assert b0 + b1 + b2 + b3 == l + h;
    t.IfftStep(l + h, k, off, 2 * d);
    Halves(l, h);
    t.IfftStep(l, k - 1, off, d);
    Halves(b0, b1);
    t.IfftStep(h, k - 1, off + 2 * d, d);
    Halves(b2, b3);
    var a0, a1 := t.Ifft(b0, k - 2, off), t.Ifft(b1, k - 2, off + d);
    var a2, a3 := t.Ifft(b2, k - 2, off + 2 * d), t.Ifft(b3, k - 2, off + 3 * d);
    var y0, y1 := t.LowUp(a0, a1, off + d - 1), t.HighUp(a0, a1);
    var y2, y3 := t.LowUp(a2, a3, off + 3 * d - 1), t.HighUp(a2, a3);
    ButterfliesUpJoin(t, y0, y1, y2, y3, s);
    assert t.LowUp(y0, y2, s) + t.LowUp(y1, y3, s) + (t.HighUp(y0, y2) + t.HighUp(y1, y3))
        == t.LowUp(y0, y2, s) + t.LowUp(y1, y3, s) + t.HighUp(y0, y2) + t.HighUp(y1, y3);
  }

  lemma QuarterEntryUp(t: Leopard, a0: seq<Shard>, a1: seq<Shard>, a2: seq<Shard>, a3: seq<Shard>,
                       s01: nat, s23: nat, s02: nat, i: nat)
    requires |a0| == |a1| == |a2| == |a3| && i < |a0|
    requires s01 < |t.skew| && s23 < |t.skew| && s02 < |t.skew|
    ensures var y0, y1 := t.LowUp(a0, a1, s01), t.HighUp(a0, a1);
            var y2, y3 := t.LowUp(a2, a3, s23), t.HighUp(a2, a3);
            Up4(t, Quad(a0[i], a1[i], a2[i], a3[i]), s01, s23, s02)
            == Quad(t.LowUp(y0, y2, s02)[i], t.LowUp(y1, y3, s02)[i], t.HighUp(y0, y2)[i], t.HighUp(y1, y3)[i])
  {
    hide Xor2, Leopard.Twiddle;
  }

  lemma RaisedEntry(t: Leopard, before: seq<Shard>, after: seq<Shard>, off: nat, r: nat, d: nat, i: nat)
    requires |before| == |after| && i + 3 * d < |before| && d > 0 && off + r + 3 * d <= |t.skew|
    requires RaisedAt(t, before, after, off, r, d, i)
    ensures Quad(after[i], after[i + d], after[i + 2 * d], after[i + 3 * d])
         == Up4(t, Quad(before[i], before[i + d], before[i + 2 * d], before[i + 3 * d]),
                off + r + d - 1, off + r + 3 * d - 1, off + r + 2 * d - 1)
  {
    hide Up4;
  }

  lemma QuartersMatchUp(t: Leopard, before: seq<Shard>, after: seq<Shard>, off: nat, r: nat, d: nat,
                        b0: seq<Shard>, b1: seq<Shard>, b2: seq<Shard>, b3: seq<Shard>)
    requires d > 0 && |before| == |after| && r + 4 * d <= |before| && off + r + 4 * d <= |t.skew| + 1
    requires forall i | r <= i < r + d :: RaisedAt(t, before, after, off, r, d, i)
    requires b0 == before[r..r + d] && b1 == before[r + d..r + 2 * d]
    requires b2 == before[r + 2 * d..r + 3 * d] && b3 == before[r + 3 * d..r + 4 * d]
    ensures var s := off + r + 2 * d - 1;
            var y0, y1 := t.LowUp(b0, b1, off + r + d - 1), t.HighUp(b0, b1);
            var y2, y3 := t.LowUp(b2, b3, off + r + 3 * d - 1), t.HighUp(b2, b3);
            && after[r..r + d] == t.LowUp(y0, y2, s) && after[r + d..r + 2 * d] == t.LowUp(y1, y3, s)
            && after[r + 2 * d..r + 3 * d] == t.HighUp(y0, y2) && after[r + 3 * d..r + 4 * d] == t.HighUp(y1, y3)
  {
    hide Leopard.LowUp, Leopard.HighUp, Up4, RaisedAt;
    var s01, s23, s02 := off + r + d - 1, off + r + 3 * d - 1, off + r + 2 * d - 1;
    var y0, y1 := t.LowUp(b0, b1, s01), t.HighUp(b0, b1);
    var y2, y3 := t.LowUp(b2, b3, s23), t.HighUp(b2, b3);
    var a0, a1 := after[r..r + d], after[r + d..r + 2 * d];
    var a2, a3 := after[r + 2 * d..r + 3 * d], after[r + 3 * d..r + 4 * d];
    forall i | 0 <= i < d
      ensures a0[i] == t.LowUp(y0, y2, s02)[i] && a1[i] == t.LowUp(y1, y3, s02)[i]
      ensures a2[i] == t.HighUp(y0, y2)[i] && a3[i] == t.HighUp(y1, y3)[i]
    {
      RaisedEntry(t, before, after, off, r, d, r + i);
      QuarterEntryUp(t, b0, b1, b2, b3, s01, s23, s02, i);
    }
  }

  // The block holds the inverse transform of its original shards.
  ghost predicate BlockUp(t: Leopard, w: seq<Shard>, orig: seq<Shard>, k: nat, lo: nat, off: nat) {
    && lo + Pow2(k) <= |w| && lo + Pow2(k) <= |orig| && off + lo + Pow2(k) <= |t.skew| + 1
    && w[lo..lo + Pow2(k)] == IfftAt(t, orig, k, lo, off)
  }

  // Four neighbouring blocks become one of the next but one level.
  lemma BlockMerge(t: Leopard, w: seq<Shard>, w': seq<Shard>, orig: seq<Shard>, k: nat, lo: nat, off: nat, d: nat)
    requires k >= 2 && d == Pow2(k - 2) > 0 && Pow2(k) == 4 * d && |w'| == |w|
    requires BlockUp(t, w, orig, k - 2, lo, off) && BlockUp(t, w, orig, k - 2, lo + d, off)
    requires BlockUp(t, w, orig, k - 2, lo + 2 * d, off) && BlockUp(t, w, orig, k - 2, lo + 3 * d, off)
    requires forall i | lo <= i < lo + d :: RaisedAt(t, w, w', off, lo, d, i)
    ensures BlockUp(t, w', orig, k, lo, off)
  {
    hide Leopard.Ifft, Leopard.LowUp, Leopard.HighUp, RaisedAt, Pow2;
    var b0, b1 := orig[lo..lo + d], orig[lo + d..lo + 2 * d];
    var b2, b3 := orig[lo + 2 * d..lo + 3 * d], orig[lo + 3 * d..lo + 4 * d];
    IfftTwoLevels(t, b0, b1, b2, b3, k, off + lo);
    FourQuarters(orig, lo, d);
    FourQuarters(w', lo, d);
    QuartersMatchUp(t, w, w', off, lo, d, w[lo..lo + d], w[lo + d..lo + 2 * d], w[lo + 2 * d..lo + 3 * d],
                    w[lo + 3 * d..lo + 4 * d]);
  }

  // ---------- The loops over blocks and layers ----------

  ghost predicate UpBefore(t: Leopard, w: seq<Shard>, orig: seq<Shard>, k: nat, off: nat, end: nat) {
    forall p: nat | p < end && At(p, k) < |orig| :: BlockUp(t, w, orig, k, At(p, k), off)
  }

  ghost predicate UpFrom(t: Leopard, w: seq<Shard>, orig: seq<Shard>, k: nat, off: nat, start: nat) {
    forall p: nat | p >= start && At(p, k) < |orig| :: BlockUp(t, w, orig, k, At(p, k), off)
  }

  // From mtrunc on there is nothing, and nothing is what products and sums keep.
  ghost predicate ZeroTail(t: Leopard, orig: seq<Shard>, mtrunc: nat, size: nat) {
    mtrunc < |orig| ==> t.Linear() && forall i | mtrunc <= i < |orig| :: orig[i] == Clear(size)
  }

  lemma BlockUpFrame(t: Leopard, w: seq<Shard>, w': seq<Shard>, orig: seq<Shard>, k: nat, lo: nat, off: nat)
    requires BlockUp(t, w, orig, k, lo, off) && |w'| == |w|
    requires forall i | lo <= i < lo + Pow2(k) :: w'[i] == w[i]
    ensures BlockUp(t, w', orig, k, lo, off)
  {
    hide IfftAt;
    assert w'[lo..lo + Pow2(k)] == w[lo..lo + Pow2(k)];
  }

  // A block of zeros is its own transform.
  lemma ZeroBlock(t: Leopard, orig: seq<Shard>, k: nat, lo: nat, off: nat, size: nat)
    requires lo + Pow2(k) <= |orig| && off + lo + Pow2(k) <= |t.skew| + 1 && t.Linear()
    requires forall i | lo <= i < lo + Pow2(k) :: orig[i] == Clear(size)
    ensures IfftAt(t, orig, k, lo, off) == ClearRows(Pow2(k), size)
  {
    hide Leopard.Ifft, Pow2, Clear, Leopard.Linear;
    assert orig[lo..lo + Pow2(k)] == ClearRows(Pow2(k), size);
    t.IfftZeros(k, off + lo, size);
  }

  lemma ZeroBlockMerge(t: Leopard, w: seq<Shard>, orig: seq<Shard>, k: nat, lo: nat, off: nat, d: nat, size: nat)
    requires k >= 2 && d == Pow2(k - 2) > 0 && Pow2(k) == 4 * d && t.Linear()
    requires BlockUp(t, w, orig, k - 2, lo, off) && BlockUp(t, w, orig, k - 2, lo + d, off)
    requires BlockUp(t, w, orig, k - 2, lo + 2 * d, off) && BlockUp(t, w, orig, k - 2, lo + 3 * d, off)
    requires forall i | lo <= i < lo + 4 * d :: orig[i] == Clear(size)
    ensures BlockUp(t, w, orig, k, lo, off)
  {
    hide IfftAt, Pow2, Clear, Leopard.Linear;
    ZeroBlock(t, orig, k - 2, lo, off, size);
    ZeroBlock(t, orig, k - 2, lo + d, off, size);
    ZeroBlock(t, orig, k - 2, lo + 2 * d, off, size);
    ZeroBlock(t, orig, k - 2, lo + 3 * d, off, size);
    ZeroBlock(t, orig, k, lo, off, size);
    FourQuarters(w, lo, d);
    assert w[lo..lo + 4 * d] == ClearRows(4 * d, size);
  }

  // Block q is four blocks of the level below.
  lemma SubBlocks(t: Leopard, w: seq<Shard>, orig: seq<Shard>, k: nat, q: nat, off: nat, d: nat, n: nat)
    requires 2 <= k <= n && |orig| == Pow2(n) && d == Pow2(k - 2) && At(q, k) < |orig|
    requires UpFrom(t, w, orig, k - 2, off, 4 * q)
    ensures Pow2(k) == 4 * d && d > 0 && At(q, k) + 4 * d <= |orig|
    ensures BlockUp(t, w, orig, k - 2, At(q, k), off) && BlockUp(t, w, orig, k - 2, At(q, k) + d, off)
    ensures BlockUp(t, w, orig, k - 2, At(q, k) + 2 * d, off) && BlockUp(t, w, orig, k - 2, At(q, k) + 3 * d, off)
  {
    hide At, BlockUp, Pow2;
    AtQuarter(q, k);
    AtFits(q, k, n);
    PowPositive(k - 2);
    assert At(4 * q + 1, k - 2) < |orig| && At(4 * q + 2, k - 2) < |orig| && At(4 * q + 3, k - 2) < |orig|;
  }

  lemma StepUpBlock(t: Leopard, w: seq<Shard>, w': seq<Shard>, orig: seq<Shard>, k: nat, q: nat, off: nat, d: nat,
                    n: nat)
    requires 2 <= k <= n && d == Pow2(k - 2) && |w| == |w'| && |orig| == Pow2(n) && At(q, k) < |orig|
    requires UpBefore(t, w, orig, k, off, q) && UpFrom(t, w, orig, k - 2, off, 4 * q)
    requires At(q, k) + 4 * d <= |w| && off + At(q, k) + 3 * d <= |t.skew| && d > 0
    requires forall i | At(q, k) <= i < At(q, k) + d :: RaisedAt(t, w, w', off, At(q, k), d, i)
    requires forall j | 0 <= j < |w| && (j < At(q, k) || j >= At(q, k) + 4 * d) :: w'[j] == w[j]
    ensures UpBefore(t, w', orig, k, off, q + 1) && UpFrom(t, w', orig, k - 2, off, 4 * (q + 1))
  {
    hide At, IfftAt, RaisedAt, Pow2;
    var lower: nat := k - 2;
    SubBlocks(t, w, orig, k, q, off, d, n);
    BlockMerge(t, w, w', orig, k, At(q, k), off, d);
    forall p: nat | p < q + 1 && At(p, k) < |orig| ensures BlockUp(t, w', orig, k, At(p, k), off) {
      if p < q {
        AtMonotonic(p + 1, q, k);
        AtNext(p, k);
        BlockUpFrame(t, w, w', orig, k, At(p, k), off);
      }
    }
    forall p: nat | p >= 4 * (q + 1) && At(p, lower) < |orig| ensures BlockUp(t, w', orig, lower, At(p, lower), off) {
      AtQuarter(q + 1, k);
      AtNext(q, k);
      AtMonotonic(4 * (q + 1), p, lower);
      BlockUpFrame(t, w, w', orig, lower, At(p, lower), off);
    }
  }

  // What the loop did not reach was zero.
  lemma EndUpLevel(t: Leopard, w: seq<Shard>, orig: seq<Shard>, k: nat, q: nat, off: nat, mtrunc: nat, n: nat,
                   size: nat)
    requires 2 <= k <= n && |orig| == Pow2(n) && ZeroTail(t, orig, mtrunc, size) && At(q, k) >= mtrunc
    requires UpBefore(t, w, orig, k, off, q) && UpFrom(t, w, orig, k - 2, off, 4 * q)
    ensures UpFrom(t, w, orig, k, off, 0)
  {
    hide At, BlockUp, Pow2;
    forall p: nat | At(p, k) < |orig| ensures BlockUp(t, w, orig, k, At(p, k), off) {
      if p >= q {
        AtMonotonic(q, p, k);
        SubBlocks(t, w, orig, k, p, off, Pow2(k - 2), n);
        ZeroBlockMerge(t, w, orig, k, At(p, k), off, Pow2(k - 2), size);
      }
    }
  }

  // The loop over the blocks of 4 * dist shards.
  method IfftLevel(t: Leopard, work: array<Shard>, mtrunc: nat, dist: nat, off: nat,
                   ghost k: nat, ghost n: nat, ghost orig: seq<Shard>, ghost size: nat)
    requires 2 <= k <= n && dist == Pow2(k - 2) && mtrunc <= Pow2(n) == |orig| <= work.Length
    requires off + |orig| <= |t.skew| + 1 && ZeroTail(t, orig, mtrunc, size)
    requires UpFrom(t, work[..], orig, k - 2, off, 0)
    modifies work
    ensures UpFrom(t, work[..], orig, k, off, 0)
    ensures forall j | |orig| <= j < work.Length :: work[j] == old(work[j])
  {
    hide RaisedAt, Pow2, At, UpBefore, UpFrom, BlockUp, ZeroTail;
    var r := 0;
    ghost var q := 0;
    AtNext(0, k);
    assert UpBefore(t, work[..], orig, k, off, 0) by {
      NothingBefore(t, work[..], orig, k, off);
    }
    while r < mtrunc
      invariant r == At(q, k)
      invariant UpBefore(t, work[..], orig, k, off, q) && UpFrom(t, work[..], orig, k - 2, off, 4 * q)
      invariant forall j | |orig| <= j < work.Length :: work[j] == old(work[j])
      decreases mtrunc - r
    {
      AtFits(q, k, n);
      AtQuarter(q, k);
      AtNext(q, k);
      PowPositive(k - 2);
      ghost var before := work[..];
      IfftBlock(t, work, r, dist, off);
      StepUpBlock(t, before, work[..], orig, k, q, off, dist, n);
      r := r + 4 * dist;
      q := q + 1;
    }
    EndUpLevel(t, work[..], orig, k, q, off, mtrunc, n, size);
  }

  lemma NothingBefore(t: Leopard, w: seq<Shard>, orig: seq<Shard>, k: nat, off: nat)
    ensures UpBefore(t, w, orig, k, off, 0)
  {
  }

  // ---------- The layer that may be left ----------

  ghost predicate PairUpAt(t: Leopard, before: seq<Shard>, after: seq<Shard>, s: nat, d: nat, i: nat)
    requires |before| == |after| && i + d < |before| && s < |t.skew|
  {
    && after[i + d] == Xor2(before[i + d], before[i])
    && after[i] == Xor2(before[i], t.Twiddle(s, Xor2(before[i + d], before[i])))
  }

  // One layer over both halves of 2 * dist shards.
  method IfftLast(t: Leopard, work: array<Shard>, dist: nat, s: nat)
    requires 2 * dist <= work.Length && s < |t.skew|
    modifies work
    ensures forall i | 0 <= i < dist :: PairUpAt(t, old(work[..]), work[..], s, dist, i)
    ensures forall j | 2 * dist <= j < work.Length :: work[j] == old(work[j])
  {
    hide Xor2, Leopard.Twiddle;
    ghost var before := work[..];
    for i := 0 to dist
      invariant forall j | 0 <= j < i :: PairUpAt(t, before, work[..], s, dist, j)
      invariant forall j | i <= j < dist || dist + i <= j < work.Length :: work[j] == before[j]
    {
      ghost var now := work[..];
      ButterflyUp(t, work, i, i + dist, s);
      forall j | 0 <= j < i ensures PairUpAt(t, before, work[..], s, dist, j) {
        assert PairUpAt(t, before, now, s, dist, j);
      }
    }
  }

  lemma PairsUp(t: Leopard, before: seq<Shard>, after: seq<Shard>, s: nat, d: nat)
    requires |before| == |after| && 2 * d <= |before| && s < |t.skew|
    requires forall i | 0 <= i < d :: PairUpAt(t, before, after, s, d, i)
    ensures after[..2 * d] == t.LowUp(before[..d], before[d..2 * d], s) + t.HighUp(before[..d], before[d..2 * d])
  {
    hide Xor2, Leopard.Twiddle;
    forall i | 0 <= i < d
      ensures after[i] == t.LowUp(before[..d], before[d..2 * d], s)[i]
      ensures after[i + d] == t.HighUp(before[..d], before[d..2 * d])[i]
    {
      assert PairUpAt(t, before, after, s, d, i);
    }
  }

  // The last layer completes the transform.
  lemma LastLayer(t: Leopard, w: seq<Shard>, w': seq<Shard>, orig: seq<Shard>, k: nat, off: nat, d: nat, s: nat)
    requires d == Pow2(k) && |orig| == 2 * d <= |w| == |w'| && off + 2 * d <= |t.skew| + 1 && s == off + d - 1
    requires UpFrom(t, w, orig, k, off, 0)
    requires forall i | 0 <= i < d :: PairUpAt(t, w, w', s, d, i)
    ensures |orig| == Pow2(k + 1) && w'[..2 * d] == t.Ifft(orig, k + 1, off)
  {
    hide Leopard.Ifft, PairUpAt, Pow2, At, Leopard.LowUp, Leopard.HighUp;
    PowStep(k + 1);
    AtNext(0, k);
    assert BlockUp(t, w, orig, k, At(0, k), off) && BlockUp(t, w, orig, k, At(1, k), off);
    t.IfftStep(orig, k + 1, off, d);
    PairsUp(t, w, w', s, d);
    assert orig[d..2 * d] == orig[d..];
  }

  lemma NothingDone(t: Leopard, w: seq<Shard>, orig: seq<Shard>, off: nat)
    requires |orig| <= |w| && off + |orig| <= |t.skew| + 1 && orig == w[..|orig|]
    ensures UpFrom(t, w, orig, 0, off, 0)
  {
    hide Leopard.Ifft, Pow2;
    forall p: nat | At(p, 0) < |orig| ensures BlockUp(t, w, orig, 0, At(p, 0), off) {
      AtZero(p);
      PowZero();
      t.TransformBase(orig[p..p + 1], off + p);
      assert w[p..p + 1] == orig[p..p + 1];
    }
  }

  lemma AllDone(t: Leopard, w: seq<Shard>, orig: seq<Shard>, k: nat, off: nat)
    requires |orig| == Pow2(k) <= |w| && off + |orig| <= |t.skew| + 1 && UpFrom(t, w, orig, k, off, 0)
    ensures w[..|orig|] == t.Ifft(orig, k, off)
  {
    hide Leopard.Ifft, Pow2;
    AtNext(0, k);
    assert BlockUp(t, w, orig, k, At(0, k), off);
    assert orig[0..Pow2(k)] == orig && w[0..|orig|] == w[..|orig|];
  }

  lemma LayersLeft(k: nat, n: nat)
    requires k <= n && 4 * Pow2(k) > Pow2(n)
    ensures Pow2(k) < Pow2(n) ==> n == k + 1
    ensures Pow2(k) >= Pow2(n) ==> n == k
  {
    if k < n {
      PowMonotonic(k + 1, n);
      PowStep(k + 1);
      if k + 1 < n {
        PowMonotonic(k + 2, n);
        PowStep(k + 2);
      }
    }
  }

  lemma {:induction false} PowMonotonic(k: nat, n: nat)
    requires k <= n
    ensures Pow2(k) <= Pow2(n)
  {
    if k < n {
      PowMonotonic(k, n - 1);
    }
  }

  lemma PowInjective(k: nat, n: nat)
    requires Pow2(k) <= Pow2(n)
    ensures k <= n
  {
    if n < k {
      PowStep(n + 1);
      PowMonotonic(n + 1, k);
    }
  }

  // ifftDITDecoder for off = 0, and the loops of ifftDITEncoder for the skew slice that
  // starts at entry off - 1. All m positions end up as in the whole transform.
  method IfftDit(t: Leopard, mtrunc: nat, work: array<Shard>, m: nat, off: nat, ghost n: nat, ghost size: nat)
    requires m == Pow2(n) && mtrunc <= m <= work.Length && off + m <= |t.skew| + 1
    requires ZeroTail(t, work[..m], mtrunc, size)
    modifies work
    ensures work[..m] == t.Ifft(old(work[..m]), n, off)
    ensures forall j | m <= j < work.Length :: work[j] == old(work[j])
  {
    hide Leopard.Ifft, UpFrom, ZeroTail, PairUpAt, At, Pow2;
    ghost var orig := work[..m];
    var dist, dist4 := 1, 4;
    ghost var k: nat := 0;
    PowZero();
    PowPositive(n);
    PowInjective(0, n);
    NothingDone(t, work[..], orig, off);
    while dist4 <= m
      invariant k <= n && dist == Pow2(k) && dist4 == 4 * dist
      invariant UpFrom(t, work[..], orig, k, off, 0)
      invariant forall j | m <= j < work.Length :: work[j] == old(work[j])
      decreases n - k
    {
      PowStep(k + 1);
      PowStep(k + 2);
      PowInjective(k + 2, n);
      IfftLevel(t, work, mtrunc, dist, off, k + 2, n, orig, size);
      dist := dist4;
      dist4 := dist4 * 4;
      k := k + 2;
    }
    LayersLeft(k, n);
    if dist < m {
      PowStep(n);
      assert dist * 2 == m;
      ghost var before := work[..];
      IfftLast(t, work, dist, off + dist - 1);
      LastLayer(t, before, work[..], orig, k, off, dist, off + dist - 1);
      assert work[..][..2 * dist] == work[..m];
    } else {
      AllDone(t, work[..], orig, n, off);
      assert work[..][..m] == work[..m];
    }
  }
}
